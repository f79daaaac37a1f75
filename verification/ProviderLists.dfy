/** client/client.go: the provider lists of a tree manifest.  A list names the rocks that
    provide a module or a command, as "name/version" tokens, the active one first. */
module ProviderLists {
  import opened Text
  import opened Rocks
  import SortedKeys

  function Token(name: string, version: string): string {
    name + "/" + version
  }

  /** The list without some tokens. */
  function Without(list: seq<string>, drop: set<string>): (r: seq<string>)
    ensures forall x :: x in r <==> x in list && x !in drop
  {
    if list == [] then [] else
      var init := Without(list[..|list| - 1], drop);
      assert list == list[..|list| - 1] + [list[|list| - 1]];
      if list[|list| - 1] in drop then init else init + [list[|list| - 1]]
  }

  predicate Distinct(list: seq<string>) {
    forall i, j :: 0 <= i < j < |list| ==> list[i] != list[j]
  }

  lemma {:induction false} WithoutDistinct(list: seq<string>, drop: set<string>)
    requires Distinct(list)
    ensures Distinct(Without(list, drop))
  {
    if list != [] {
      WithoutDistinct(list[..|list| - 1], drop);
    }
  }

  lemma {:induction false} WithoutTwice(list: seq<string>, drop: set<string>, more: set<string>)
    ensures Without(Without(list, drop), more) == Without(list, drop + more)
  {
    if list != [] {
      var init, x := list[..|list| - 1], list[|list| - 1];
      WithoutTwice(init, drop, more);
      if x !in drop {
        assert (Without(init, drop) + [x])[..|Without(init, drop)|] == Without(init, drop);
      }
    }
  }

  /** upsertProvider */
  function Upsert(list: seq<string>, provider: string, active: bool): seq<string> {
    if active then [provider] + Without(list, {provider}) else Without(list, {provider}) + [provider]
  }

  lemma {:induction false} UpsertDistinct(list: seq<string>, provider: string, active: bool)
    requires Distinct(list)
    ensures Distinct(Upsert(list, provider, active))
    ensures forall x :: x in Upsert(list, provider, active) <==> x == provider || x in list
    ensures Upsert(list, provider, active) != []
  {
    WithoutDistinct(list, {provider});
    var r := Without(list, {provider});
    assert forall i :: 0 <= i < |r| ==> r[i] in r;
  }

  method UpsertProvider(list: seq<string>, provider: string, active: bool) returns (r: seq<string>)
    ensures r == Upsert(list, provider, active)
  {
    var out: seq<string> := [];
    for i := 0 to |list|
      invariant out == Without(list[..i], {provider})
    {
      assert list[..i + 1][..i] == list[..i];
      if list[i] != provider {
        out := out + [list[i]];
      }
    }
    assert list[..|list|] == list;
    r := if active then [provider] + out else out + [provider];
  }

  lemma {:induction false} MoveDown(was: seq<string>, n: nat, i: nat)
    requires n <= i < |was|
    ensures var now := was[n := was[i]];
      now[..n + 1] == was[..n] + [was[i]] && now[i + 1..] == was[i + 1..]
  {
  }

  lemma {:induction false} WithoutNext(was: seq<string>, i: nat, drop: set<string>)
    requires i < |was|
    ensures Without(was[..i + 1], drop) == Without(was[..i], drop) + if was[i] in drop then [] else [was[i]]
  {
    assert was[..i + 1][..i] == was[..i];
  }

  /** The loop of removeProvider that compacts a list in place: the kept tokens move to
      the front, n of them. */
  method Compact(list: array<string>, provider: string) returns (n: nat)
    modifies list
    ensures n <= list.Length && list[..n] == Without(old(list[..]), {provider})
  {
    n := 0;
    ghost var was := list[..];
    for i := 0 to list.Length
      invariant n <= i && list[..n] == Without(was[..i], {provider})
      invariant list[i..] == was[i..]
    {
      WithoutNext(was, i, {provider});
      ghost var now := list[..];
      assert now[i..] == was[i..] && now[i] == now[i..][0] == was[i];
      assert now[i + 1..] == was[i + 1..];
      if list[i] != provider {
        MoveDown(now, n, i);
        list[n] := list[i];
        assert list[..] == now[n := now[i]];
        n := n + 1;
      }
    }
    assert was[..list.Length] == was;
  }

  /** The index without some providers, and without the lists this empties. */
  function Dropped(index: Providers, drop: set<string>): Providers {
    map item | item in index && Without(index[item], drop) != [] :: Without(index[item], drop)
  }

  lemma {:induction false} DroppedTwice(index: Providers, drop: set<string>, more: set<string>)
    ensures Dropped(Dropped(index, drop), more) == Dropped(index, drop + more)
  {
    forall item | item in index
      ensures Without(Without(index[item], drop), more) == Without(index[item], drop + more)
    {
      WithoutTwice(index[item], drop, more);
    }
  }

  method RemoveProvider(index: Providers, provider: string) returns (out: Providers)
    ensures out == Dropped(index, {provider})
  {
    out := map[];
    var left := index.Keys;
    while left != {}
      invariant left <= index.Keys
      invariant forall k :: k in out <==> k in index && k !in left && Without(index[k], {provider}) != []
      invariant forall k :: k in out ==> out[k] == Without(index[k], {provider})
      decreases |left|
    {
      var item :| item in left;
      var list := index[item];
      var a := new string[|list|](i requires 0 <= i < |list| => list[i]);
      assert a[..] == list;
      var n := Compact(a, provider);
      if n > 0 {
        out := out[item := a[..n]];
      }
      left := left - {item};
    }
  }

  // ---- the active provider -------------------------------------------------

  /** strings.Cut(token, "/") */
  function Cut(token: string): (r: Maybe<(string, string)>)
    ensures r.Just? ==> token == Token(r.value.0, r.value.1) && '/' !in r.value.0
  {
    if token == "" then Nothing
    else if token[0] == '/' then Just(("", token[1..]))
    else
      var rest := Cut(token[1..]);
      if rest.Nothing? then Nothing else Just(([token[0]] + rest.value.0, rest.value.1))
  }

  /** A token names one rock, because rock names hold no slash. */
  lemma {:induction false} CutToken(name: string, version: string)
    requires '/' !in name
    ensures Cut(Token(name, version)) == Just((name, version))
  {
    var t := Token(name, version);
    if name == "" {
      assert t[1..] == version;
    } else {
      CutToken(name[1..], version);
      assert name[0] in name && [name[0]] + name[1..] == name;
      assert t[1..] == Token(name[1..], version);
    }
  }

  function HeadOf(index: Providers, item: string): Maybe<(string, string)> {
    if item in index && |index[item]| > 0 then Cut(index[item][0]) else Nothing
  }

  /** The lookup manifestProvider returns: modules first, then commands. */
  function ManifestProvider(m: Manifest, item: string): Maybe<(string, string)> {
    var head := HeadOf(m.modules, item);
    if head.Just? then head else HeadOf(m.commands, item)
  }

  // ---- the highest version in string order ---------------------------------

  function Highest(versions: set<string>): (best: string)
    ensures versions != {} ==> best in versions
    ensures forall v :: v in versions ==> v == best || Less(v, best)
  {
    if versions == {} then "" else
      var ks := SortedKeys.Strings(versions);
      assert ks != [] by { var v :| v in versions; assert v in ks; }
      var best := ks[|ks| - 1];
      assert forall v :: v in versions ==> v in ks;
      best
  }

  /** The innermost loop of resolveInstalledDeps. */
  method HighestVersion(versions: set<string>) returns (best: string)
    ensures best == Highest(versions)
  {
    best := "";
    var left := versions;
    while left != {}
      invariant left <= versions
      invariant best == "" || best in versions
      invariant forall v :: v in versions - left ==> v == best || Less(v, best)
      decreases |left|
    {
      var v :| v in left;
      left := left - {v};
      LessTotal(v, best);
      if Less(best, v) {
        forall w | w in versions - left && w != v ensures Less(w, v) {
          if w != best { LessTransitive(w, best, v); }
        }
        best := v;
      }
    }
    var want := Highest(versions);
    if versions != {} && best != want {
      assert Less(want, best);
      LessAsymmetric(want, best);
    }
  }
}
