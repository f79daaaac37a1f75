/** The directory trees of a rock_manifest (manif/store.go): slashed paths folded into
    nested maps, and flattened again. */
module PathTree {
  import opened Text
  import opened LuaValue
  import opened Tables

  // ---- paths ---------------------------------------------------------------

  predicate IsSegment(s: string) {
    '/' !in s
  }

  predicate Segments(ps: seq<string>) {
    ps != [] && forall i :: 0 <= i < |ps| ==> IsSegment(ps[i])
  }

  /** strings.Split(path, "/") */
  function Split(path: string): (ps: seq<string>)
    ensures Segments(ps) && Join(ps) == path
  {
    if path == "" then [""]
    else if path[0] == '/' then [""] + Split(path[1..])
    else
      var rest := Split(path[1..]);
      [[path[0]] + rest[0]] + rest[1..]
  }

  function Join(ps: seq<string>): string
    requires ps != []
  {
    if |ps| == 1 then ps[0] else ps[0] + "/" + Join(ps[1..])
  }

  lemma {:induction false} SplitOne(s: string)
    requires IsSegment(s)
    ensures Split(s) == [s]
  {
    if s != "" {
      SplitOne(s[1..]);
      assert [s[0]] + s[1..] == s;
    }
  }

  lemma {:induction false} SplitSegment(s: string, rest: string)
    requires IsSegment(s)
    ensures Split(s + "/" + rest) == [s] + Split(rest)
  {
    if s == "" {
      assert (s + "/" + rest)[1..] == rest;
    } else {
      SplitSegment(s[1..], rest);
      assert (s + "/" + rest)[1..] == s[1..] + "/" + rest;
      assert [s[0]] + s[1..] == s;
    }
  }

  lemma {:induction false} SplitJoin(ps: seq<string>)
    requires Segments(ps)
    ensures Split(Join(ps)) == ps
  {
    if |ps| == 1 {
      SplitOne(ps[0]);
    } else {
      SplitJoin(ps[1..]);
      SplitSegment(ps[0], Join(ps[1..]));
    }
  }

  lemma {:induction false} JoinAppend(ps: seq<string>, qs: seq<string>)
    requires ps != [] && qs != []
    ensures Join(ps + qs) == Join(ps) + "/" + Join(qs)
  {
    assert (ps + qs)[1..] == ps[1..] + qs;
    if |ps| > 1 {
      JoinAppend(ps[1..], qs);
      Regroup(ps[0] + "/", Join(ps[1..]), "/" + Join(qs));
      Regroup(Join(ps[1..]), "/", Join(qs));
      Regroup(ps[0] + "/" + Join(ps[1..]), "/", Join(qs));
    }
  }

  /** p names a directory on the way to q. */
  predicate Above(p: string, q: string) {
    HasPrefix(q, p + "/")
  }

  lemma {:induction false} AboveMeaning(p: string, q: string)
    ensures Above(p, q) <==> Split(p) < Split(q)
  {
    var ps, qs := Split(p), Split(q);
    if Above(p, q) {
      var rest := q[|p| + 1..];
      assert q == p + "/" + rest;
      JoinAppend(ps, Split(rest));
      SplitJoin(ps + Split(rest));
    }
    if ps < qs {
      JoinAppend(ps, qs[|ps|..]);
      assert ps + qs[|ps|..] == qs;
      assert HasPrefix(q, p + "/");
    }
  }

  // ---- trees ---------------------------------------------------------------

  /** v stands at the path ps, and is no directory. */
  predicate LeafAt(rec: map<string, Value>, ps: seq<string>, v: Value)
    decreases |ps|
  {
    ps != [] && ps[0] in rec
    && var next := rec[ps[0]];
       if |ps| == 1 then next == v && !IsMap(v)
       else IsMap(next) && LeafAt(next.rec, ps[1..], v)
  }

  /** The body of stringMapToNested's loop: walk down the path, making directories, and
      set the last segment. */
  function Insert(rec: map<string, Value>, ps: seq<string>, md5: string): map<string, Value>
    requires ps != []
    decreases |ps|
  {
    if |ps| == 1 then rec[ps[0] := Str(md5)]
    else
      var next := if ps[0] in rec && IsMap(rec[ps[0]]) then rec[ps[0]].rec else map[];
      rec[ps[0] := MapOf(Insert(next, ps[1..], md5))]
  }

  predicate Comparable(ps: seq<string>, qs: seq<string>) {
    ps <= qs || qs <= ps
  }

  lemma {:induction false} InsertLeaf(rec: map<string, Value>, ps: seq<string>, md5: string, qs: seq<string>, v: Value)
    requires ps != []
    ensures LeafAt(Insert(rec, ps, md5), qs, v)
        <==> if qs == ps then v == Str(md5) else !Comparable(ps, qs) && LeafAt(rec, qs, v)
    decreases |ps|
  {
    if qs != [] && qs[0] == ps[0] {
      assert ps == [ps[0]] + ps[1..] && qs == [qs[0]] + qs[1..];
      if |ps| > 1 {
        var next := if ps[0] in rec && IsMap(rec[ps[0]]) then rec[ps[0]].rec else map[];
        InsertLeaf(next, ps[1..], md5, qs[1..], v);
        TailComparable(ps, qs);
      }
    }
  }

  lemma TailComparable(ps: seq<string>, qs: seq<string>)
    requires ps != [] && qs != [] && ps[0] == qs[0]
    ensures Comparable(ps, qs) <==> Comparable(ps[1..], qs[1..])
    ensures ps == qs <==> ps[1..] == qs[1..]
  {
    assert ps == [ps[0]] + ps[1..] && qs == [qs[0]] + qs[1..];
    if ps <= qs { assert ps[1..] <= qs[1..]; }
    if qs <= ps { assert qs[1..] <= ps[1..]; }
    if ps[1..] <= qs[1..] { assert ps <= qs; }
    if qs[1..] <= ps[1..] { assert qs <= ps; }
  }

  // ---- folding -------------------------------------------------------------

  /** The tree after the paths of order have been inserted, one after the other. */
  function Fold(m: map<string, string>, order: seq<string>): map<string, Value>
    requires forall i :: 0 <= i < |order| ==> order[i] in m
  {
    if order == [] then map[] else
      var path := order[|order| - 1];
      Insert(Fold(m, order[..|order| - 1]), Split(path), m[path])
  }

  /** order is an iteration order of the map m. */
  ghost predicate Orders(order: seq<string>, m: map<string, string>) {
    && (forall i, j :: 0 <= i < j < |order| ==> order[i] != order[j])
    && (forall p :: p in order <==> p in m)
  }

  /** rec is what stringMapToNested can return for m. */
  ghost predicate Folds(m: map<string, string>, rec: map<string, Value>) {
    exists order: seq<string> :: Orders(order, m) && rec == Fold(m, order)
  }

  method StringMapToNested(m: map<string, string>) returns (root: map<string, Value>)
    ensures Folds(m, root)
  {
    root := map[];
    var left := m.Keys;
    ghost var order: seq<string> := [];
    while left != {}
      invariant left <= m.Keys
      invariant forall i, j :: 0 <= i < j < |order| ==> order[i] != order[j]
      invariant forall p :: p in order <==> p in m && p !in left
      invariant root == Fold(m, order)
      decreases |left|
    {
      var full :| full in left;
      ghost var more := order + [full];
      assert more[..|more| - 1] == order;
      root := Insert(root, Split(full), m[full]);
      order := more;
      left := left - {full};
    }
  }

  /** A leaf of the tree is a path of the map with the path's md5. */
  lemma {:induction false} FoldLeafFrom(m: map<string, string>, order: seq<string>, qs: seq<string>, v: Value)
    returns (i: nat)
    requires forall i :: 0 <= i < |order| ==> order[i] in m
    requires LeafAt(Fold(m, order), qs, v)
    ensures i < |order| && Split(order[i]) == qs && v == Str(m[order[i]])
    ensures forall j :: i < j < |order| ==> !Comparable(Split(order[j]), qs)
  {
    var n := |order| - 1;
    var init, path := order[..n], order[n];
    InsertLeaf(Fold(m, init), Split(path), m[path], qs, v);
    if qs == Split(path) {
      i := n;
    } else {
      i := FoldLeafFrom(m, init, qs, v);
      forall j | i < j < |order| ensures !Comparable(Split(order[j]), qs) {
        if j < n { assert order[j] == init[j]; }
      }
    }
  }

  /** No later path runs into the i-th. */
  ghost predicate Untouched(order: seq<string>, i: nat)
    requires i < |order|
  {
    forall j :: i < j < |order| ==> !Comparable(Split(order[j]), Split(order[i]))
  }

  lemma {:induction false} UntouchedInit(order: seq<string>, i: nat)
    requires i < |order| - 1 && Untouched(order, i)
    ensures Untouched(order[..|order| - 1], i)
    ensures !Comparable(Split(order[|order| - 1]), Split(order[i]))
  {
    var init := order[..|order| - 1];
    forall j | i < j < |init| ensures !Comparable(Split(init[j]), Split(init[i])) {
      assert init[j] == order[j];
    }
  }

  /** A path that no later path runs into is a leaf. */
  lemma {:induction false} FoldLeaf(m: map<string, string>, order: seq<string>, i: nat)
    requires forall i :: 0 <= i < |order| ==> order[i] in m
    requires i < |order| && Untouched(order, i)
    ensures LeafAt(Fold(m, order), Split(order[i]), Str(m[order[i]]))
  {
    var n := |order| - 1;
    var init, path := order[..n], order[n];
    InsertLeaf(Fold(m, init), Split(path), m[path], Split(order[i]), Str(m[order[i]]));
    if i < n {
      UntouchedInit(order, i);
      FoldLeaf(m, init, i);
    }
  }

  /** No file path is a directory of another. */
  predicate PrefixFree(m: map<string, string>) {
    forall p, q :: p in m && q in m ==> !Above(p, q)
  }

  lemma {:induction false} PrefixFreeMeaning(m: map<string, string>, p: string, q: string)
    requires PrefixFree(m) && p in m && q in m && Comparable(Split(p), Split(q))
    ensures p == q
  {
    AboveMeaning(p, q);
    AboveMeaning(q, p);
    var ps, qs := Split(p), Split(q);
    assert ps <= qs && ps != qs ==> ps < qs;
    assert qs <= ps && ps != qs ==> qs < ps;
    assert ps == qs ==> p == Join(ps) && q == Join(ps);
  }

  /** Without a path inside another, the leaves are the files. */
  lemma {:induction false} FoldLeaves(m: map<string, string>, order: seq<string>, p: string)
    requires Orders(order, m) && PrefixFree(m) && p in m
    ensures LeafAt(Fold(m, order), Split(p), Str(m[p]))
  {
    assert p in order;
    var i :| 0 <= i < |order| && order[i] == p;
    forall j | i < j < |order| ensures !Comparable(Split(order[j]), Split(p)) {
      if Comparable(Split(order[j]), Split(p)) { PrefixFreeMeaning(m, order[j], p); }
    }
    FoldLeaf(m, order, i);
  }

  // ---- trees are determined by their leaves --------------------------------

  /** Directories hold something and nothing but strings and directories. */
  predicate Nested(v: Value)
    decreases v
  {
    v.Str? || (IsMap(v) && v.rec != map[] && forall k :: k in v.rec ==> Nested(v.rec[k]))
  }

  predicate NestedEntries(rec: map<string, Value>) {
    forall k :: k in rec ==> Nested(rec[k])
  }

  lemma {:induction false} InsertNested(rec: map<string, Value>, ps: seq<string>, md5: string)
    requires ps != [] && NestedEntries(rec)
    ensures NestedEntries(Insert(rec, ps, md5)) && ps[0] in Insert(rec, ps, md5)
    decreases |ps|
  {
    if |ps| > 1 {
      var next := if ps[0] in rec && IsMap(rec[ps[0]]) then rec[ps[0]].rec else map[];
      assert NestedEntries(next);
      InsertNested(next, ps[1..], md5);
      assert Nested(MapOf(Insert(next, ps[1..], md5)));
    }
  }

  lemma {:induction false} FoldNested(m: map<string, string>, order: seq<string>)
    requires forall i :: 0 <= i < |order| ==> order[i] in m
    ensures NestedEntries(Fold(m, order))
    ensures order != [] ==> Fold(m, order) != map[]
  {
    if order != [] {
      FoldNested(m, order[..|order| - 1]);
      InsertNested(Fold(m, order[..|order| - 1]), Split(order[|order| - 1]), m[order[|order| - 1]]);
    }
  }

  lemma {:induction false} NestedHasLeaf(rec: map<string, Value>, k: string) returns (ps: seq<string>, v: Value)
    requires NestedEntries(rec) && k in rec
    ensures LeafAt(rec, [k] + ps, v)
    decreases rec[k]
  {
    if rec[k].Str? {
      ps, v := [], rec[k];
    } else {
      var inner := rec[k].rec;
      var l :| l in inner;
      var more;
      more, v := NestedHasLeaf(inner, l);
      ps := [l] + more;
      assert ([k] + ps)[1..] == ps;
    }
  }

  ghost predicate SameLeaves(a: map<string, Value>, b: map<string, Value>) {
    forall ps, v :: LeafAt(a, ps, v) <==> LeafAt(b, ps, v)
  }

  lemma {:induction false} SameStrings(a: map<string, Value>, b: map<string, Value>, k: string)
    requires SameLeaves(a, b) && k in a && k in b
    ensures a[k].Str? || b[k].Str? ==> a[k] == b[k]
  {
    if a[k].Str? { assert LeafAt(a, [k], a[k]); }
    if b[k].Str? { assert LeafAt(b, [k], b[k]); }
  }

  lemma {:induction false} SameLeavesUnder(a: map<string, Value>, b: map<string, Value>, k: string)
    requires NestedEntries(a) && NestedEntries(b) && SameLeaves(a, b) && k in a
    ensures k in b
    ensures a[k].Str? ==> b[k] == a[k]
    ensures !a[k].Str? ==> IsMap(b[k]) && SameLeaves(a[k].rec, b[k].rec)
  {
    var ps, v := NestedHasLeaf(a, k);
    assert LeafAt(b, [k] + ps, v);
    SameStrings(a, b, k);
    if !a[k].Str? {
      forall qs, w ensures LeafAt(a[k].rec, qs, w) <==> LeafAt(b[k].rec, qs, w) {
        assert ([k] + qs)[1..] == qs;
        if qs != [] {
          assert LeafAt(a, [k] + qs, w) <==> LeafAt(b, [k] + qs, w);
        }
      }
    }
  }

  lemma {:induction false} SameLeavesSameTree(v: Value, w: Value)
    requires IsMap(v) && IsMap(w) && NestedEntries(v.rec) && NestedEntries(w.rec) && SameLeaves(v.rec, w.rec)
    ensures v == w
    decreases v
  {
    forall k | k in v.rec ensures k in w.rec && v.rec[k] == w.rec[k] {
      SameLeavesUnder(v.rec, w.rec, k);
      if !v.rec[k].Str? {
        SameLeavesSameTree(v.rec[k], w.rec[k]);
      }
    }
    forall k | k in w.rec ensures k in v.rec {
      SameLeavesUnder(w.rec, v.rec, k);
    }
    assert v.rec == w.rec;
  }

  /** The order in which the paths are visited makes no difference. */
  lemma {:induction false} FoldOrderIrrelevant(m: map<string, string>, a: map<string, Value>, b: map<string, Value>)
    requires PrefixFree(m) && Folds(m, a) && Folds(m, b)
    ensures a == b
  {
    var o: seq<string> :| Orders(o, m) && a == Fold(m, o);
    var o': seq<string> :| Orders(o', m) && b == Fold(m, o');
    FoldNested(m, o);
    FoldNested(m, o');
    forall ps, v ensures LeafAt(a, ps, v) <==> LeafAt(b, ps, v) {
      if LeafAt(a, ps, v) {
        var i := FoldLeafFrom(m, o, ps, v);
        FoldLeaves(m, o', o[i]);
      }
      if LeafAt(b, ps, v) {
        var i := FoldLeafFrom(m, o', ps, v);
        FoldLeaves(m, o, o'[i]);
      }
    }
    SameLeavesSameTree(MapOf(a), MapOf(b));
  }

  // ---- flattening ----------------------------------------------------------

  function Under(prefix: string, k: string): string {
    if prefix != "" then prefix + "/" + k else k
  }

  function FullPath(prefix: string, ps: seq<string>): string
    decreases |ps|
  {
    if ps == [] then prefix else FullPath(Under(prefix, ps[0]), ps[1..])
  }

  /** What a leaf is recorded as; show stands for fmt.Sprintf("%v", _), which a leaf
      other than a string goes through. */
  function LeafText(v: Value, show: Value -> string): string {
    if v.Str? then v.s else show(v)
  }

  /** Every entry of out comes from a leaf below prefix or was in dst. */
  ghost predicate FlattenedFrom(prefix: string, rec: map<string, Value>, show: Value -> string,
                                dst: map<string, string>, out: map<string, string>) {
    forall full :: full in out ==>
      (full in dst && out[full] == dst[full]) || HasSource(prefix, rec, show, full, out[full])
  }

  ghost predicate HasSource(prefix: string, rec: map<string, Value>, show: Value -> string, full: string, md5: string) {
    exists ps, v :: LeafAt(rec, ps, v) && FullPath(prefix, ps) == full && md5 == LeafText(v, show)
  }

  /** Every leaf has an entry. */
  ghost predicate FlattenedAll(prefix: string, rec: map<string, Value>, out: map<string, string>) {
    forall ps, v :: LeafAt(rec, ps, v) ==> FullPath(prefix, ps) in out
  }

  /** out is what flattenNested("", rec, _) can leave in an empty map. */
  ghost predicate Flattens(rec: map<string, Value>, show: Value -> string, out: map<string, string>) {
    FlattenedFrom("", rec, show, map[], out) && FlattenedAll("", rec, out)
  }

  lemma {:induction false} SourceBelow(prefix: string, rec: map<string, Value>, show: Value -> string,
                                       k: string, full: string, md5: string)
    requires k in rec && IsMap(rec[k]) && HasSource(Under(prefix, k), rec[k].rec, show, full, md5)
    ensures HasSource(prefix, rec, show, full, md5)
  {
    var ps, v :| LeafAt(rec[k].rec, ps, v) && FullPath(Under(prefix, k), ps) == full && md5 == LeafText(v, show);
    assert ([k] + ps)[1..] == ps;
    assert LeafAt(rec, [k] + ps, v) && FullPath(prefix, [k] + ps) == full;
  }

  lemma {:induction false} SourceHere(prefix: string, rec: map<string, Value>, show: Value -> string, k: string)
    requires k in rec && !IsMap(rec[k])
    ensures HasSource(prefix, rec, show, Under(prefix, k), LeafText(rec[k], show))
  {
    assert [k][1..] == [];
    assert LeafAt(rec, [k], rec[k]) && FullPath(prefix, [k]) == Under(prefix, k);
  }

  /** flattenNested, the entries of each directory taken in any order. */
  method FlattenNested(prefix: string, v: Value, dst: map<string, string>, show: Value -> string)
    returns (out: map<string, string>)
    requires IsMap(v)
    ensures FlattenedFrom(prefix, v.rec, show, dst, out) && FlattenedAll(prefix, v.rec, out)
    ensures dst.Keys <= out.Keys
    decreases v
  {
    out := dst;
    var left := v.rec.Keys;
    while left != {}
      invariant left <= v.rec.Keys && dst.Keys <= out.Keys
      invariant FlattenedFrom(prefix, v.rec, show, dst, out)
      invariant forall ps, w :: LeafAt(v.rec, ps, w) && ps[0] !in left ==> FullPath(prefix, ps) in out
      decreases |left|
    {
      var k :| k in left;
      var before := out;
      out := FlattenEntry(prefix, v, k, out, show);
      forall full | full in out
        ensures (full in dst && out[full] == dst[full]) || HasSource(prefix, v.rec, show, full, out[full])
      {
      }
      left := left - {k};
    }
  }

  /** One turn of the loop. */
  method FlattenEntry(prefix: string, v: Value, k: string, dst: map<string, string>, show: Value -> string)
    returns (out: map<string, string>)
    requires IsMap(v) && k in v.rec
    ensures FlattenedFrom(prefix, v.rec, show, dst, out)
    ensures forall ps, w :: LeafAt(v.rec, ps, w) && ps[0] == k ==> FullPath(prefix, ps) in out
    ensures dst.Keys <= out.Keys
    decreases v, 0
  {
    var full := k;
    if prefix != "" {
      full := prefix + "/" + k;
    }
    assert full == Under(prefix, k);
    var x := v.rec[k];
    if IsMap(x) {
      out := FlattenNested(full, x, dst, show);
      forall f | f in out && !(f in dst && out[f] == dst[f]) ensures HasSource(prefix, v.rec, show, f, out[f]) {
        SourceBelow(prefix, v.rec, show, k, f, out[f]);
      }
    } else {
      out := dst[full := LeafText(x, show)];
      SourceHere(prefix, v.rec, show, k);
    }
  }

  // ---- folding and flattening ----------------------------------------------

  lemma {:induction false} FullIsJoin(prefix: string, ps: seq<string>)
    requires prefix != ""
    ensures FullPath(prefix, ps) == if ps == [] then prefix else prefix + "/" + Join(ps)
    decreases |ps|
  {
    if ps != [] {
      FullIsJoin(Under(prefix, ps[0]), ps[1..]);
      if |ps| > 1 {
        Regroup(prefix + "/", ps[0], "/");
        Regroup(prefix + "/", ps[0] + "/", Join(ps[1..]));
      }
    }
  }

  lemma {:induction false} FirstSegment(p: string)
    requires |Split(p)| > 1
    ensures Split(p)[0] == "" <==> HasPrefix(p, "/")
  {
    var ps := Split(p);
    assert p == ps[0] + ("/" + Join(ps[1..]));
    if ps[0] != "" {
      assert p[0] == ps[0][0] && ps[0][0] in ps[0];
    }
  }

  /** Flattening names a file as it was named, unless its path starts with a slash. */
  lemma {:induction false} FullOfSplit(p: string)
    requires !HasPrefix(p, "/")
    ensures FullPath("", Split(p)) == p
  {
    var ps := Split(p);
    if |ps| > 1 {
      FirstSegment(p);
      FullIsJoin(ps[0], ps[1..]);
    } else {
      assert ps[1..] == [];
    }
  }

  lemma {:induction false} FullHasNoSlash(ps: seq<string>)
    requires Segments(ps)
    ensures !HasPrefix(FullPath("", ps), "/")
  {
    if ps[0] == "" {
      if |ps| > 1 { FullHasNoSlash(ps[1..]); } else { assert ps[1..] == []; }
    } else {
      FullIsJoin(ps[0], ps[1..]);
      assert FullPath("", ps)[0] == ps[0][0];
      assert ps[0][0] in ps[0];
    }
  }

  /** File sets that a fold and a flattening keep. */
  predicate Foldable(m: map<string, string>) {
    PrefixFree(m) && forall p :: p in m ==> !HasPrefix(p, "/")
  }

  lemma {:induction false} FlattenedIsFile(m: map<string, string>, order: seq<string>, show: Value -> string,
                                           p: string, md5: string)
    requires Orders(order, m) && HasSource("", Fold(m, order), show, p, md5)
    requires forall f :: f in m ==> !HasPrefix(f, "/")
    ensures p in m && md5 == m[p]
  {
    var ps, v :| LeafAt(Fold(m, order), ps, v) && FullPath("", ps) == p && md5 == LeafText(v, show);
    var i := FoldLeafFrom(m, order, ps, v);
    FullOfSplit(order[i]);
  }

  lemma {:induction false} FoldableBack(m: map<string, string>, rec: map<string, Value>, show: Value -> string,
                                        out: map<string, string>)
    requires Folds(m, rec) && Flattens(rec, show, out) && Foldable(m)
    ensures out == m
  {
    var order: seq<string> :| Orders(order, m) && rec == Fold(m, order);
    forall p | p in m ensures p in out {
      FoldLeaves(m, order, p);
      FullOfSplit(p);
    }
    forall p | p in out ensures p in m && out[p] == m[p] {
      FlattenedIsFile(m, order, show, p, out[p]);
    }
  }

  /** A path that the flattened tree names is one that no later path ran into. */
  lemma {:induction false} KeptPath(m: map<string, string>, order: seq<string>, show: Value -> string, p: string, md5: string)
    returns (i: nat)
    requires Orders(order, m) && HasSource("", Fold(m, order), show, p, md5)
    ensures !HasPrefix(p, "/")
    ensures i < |order| && Untouched(order, i) && FullPath("", Split(order[i])) == p
  {
    var ps, v :| LeafAt(Fold(m, order), ps, v) && FullPath("", ps) == p && md5 == LeafText(v, show);
    i := FoldLeafFrom(m, order, ps, v);
    FullHasNoSlash(ps);
  }

  lemma {:induction false} KeptUntouched(m: map<string, string>, order: seq<string>, show: Value -> string, p: string)
    returns (i: nat)
    requires Orders(order, m) && Flattens(Fold(m, order), show, m)
    requires forall f :: f in m ==> !HasPrefix(f, "/")
    requires p in m
    ensures i < |order| && Untouched(order, i) && order[i] == p
  {
    i := KeptPath(m, order, show, p, m[p]);
    FullOfSplit(order[i]);
  }

  lemma {:induction false} UntouchedApart(order: seq<string>, i: nat, j: nat)
    requires i < |order| && j < |order| && i != j && Untouched(order, i) && Untouched(order, j)
    ensures !(Split(order[i]) < Split(order[j]))
  {
    assert i < j ==> !Comparable(Split(order[j]), Split(order[i]));
    assert j < i ==> !Comparable(Split(order[i]), Split(order[j]));
  }

  lemma {:induction false} KeptIsFoldable(m: map<string, string>, rec: map<string, Value>, show: Value -> string)
    requires Folds(m, rec) && Flattens(rec, show, m)
    ensures Foldable(m)
  {
    var order: seq<string> :| Orders(order, m) && rec == Fold(m, order);
    forall p | p in m ensures !HasPrefix(p, "/") {
      var i := KeptPath(m, order, show, p, m[p]);
    }
    forall p, q | p in m && q in m ensures !Above(p, q) {
      AboveMeaning(p, q);
      var i := KeptUntouched(m, order, show, p);
      var j := KeptUntouched(m, order, show, q);
      if i != j { UntouchedApart(order, i, j); }
    }
  }

  /** Whatever the iteration orders, flattening a folded file set gives it back exactly
      when no file lies under another and no path starts with a slash. */
  lemma {:induction false} FoldThenFlatten(m: map<string, string>, rec: map<string, Value>, show: Value -> string,
                                           out: map<string, string>)
    requires Folds(m, rec) && Flattens(rec, show, out)
    ensures out == m <==> Foldable(m)
  {
    if Foldable(m) { FoldableBack(m, rec, show, out); }
    if out == m { KeptIsFoldable(m, rec, show); }
  }
}
