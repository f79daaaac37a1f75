/** How manif/store.go sees Lua values: arrays, string-keyed maps and numbers, and what
    a write and a read change about them. */
module Tables {
  import opened Rocks
  import opened LuaValue
  import opened LuaText
  import opened LuaGrammar
  import opened LuaRoundTrip
  import opened LuaFaithful
  import SortedKeys

  // ---- building and taking apart -------------------------------------------

  /** The values under the keys 1, 2, ..., n. */
  function Numbered(xs: seq<Value>): (num: map<int, Value>)
    ensures forall k :: k in num <==> 1 <= k <= |xs|
    ensures forall k :: k in num ==> num[k] == xs[k - 1]
    ensures |num| == |xs|
  {
    if xs == [] then map[] else
      var init := Numbered(xs[..|xs| - 1]);
      assert |xs| !in init;
      init[|xs| := xs[|xs| - 1]]
  }

  /** A []any. */
  function ArrayOf(xs: seq<Value>): Value {
    Table(Numbered(xs), map[])
  }

  /** A map[string]any. */
  function MapOf(rec: map<string, Value>): Value {
    Table(map[], rec)
  }

  /** The type test v.(map[string]any). */
  predicate IsMap(v: Value) {
    v.Table? && v.num == map[]
  }

  /** The type test v.([]any); the parser gives no empty arrays. */
  predicate IsArray(v: Value) {
    v.Table? && v.num != map[] && v.rec == map[]
  }

  function Elements(v: Value): (xs: seq<Value>)
    requires v.Table?
    ensures |xs| == |v.num|
    ensures forall x :: x in xs ==> x < v
  {
    EntriesFrom(v);
    seq(|v.num|, i requires 0 <= i < |v.num| =>
      assert NumEntries(v.num)[i] in NumEntries(v.num) + RecEntries(v.rec);
      NumEntries(v.num)[i].value)
  }

  /** The slots of a table in order, whatever else it holds. */
  lemma {:induction false} ArrayElements(xs: seq<Value>, rec: map<string, Value>)
    ensures Elements(Table(Numbered(xs), rec)) == xs
  {
    NumberedKeys(xs);
    var num := Numbered(xs);
    forall i | 0 <= i < |xs| ensures NumEntries(num)[i].value == xs[i] {
    }
  }

  lemma {:induction false} NumberedKeys(xs: seq<Value>)
    ensures |SortedKeys.Ints(Numbered(xs).Keys)| == |xs|
    ensures forall i :: 0 <= i < |xs| ==> SortedKeys.Ints(Numbered(xs).Keys)[i] == i + 1
  {
    var num := Numbered(xs);
    assert |num.Keys| == |num|;
    SortedKeys.DenseInts(num.Keys, 1);
  }

  lemma {:induction false} ArrayShape(xs: seq<Value>)
    ensures IsArray(ArrayOf(xs)) <==> xs != []
    ensures IsMap(ArrayOf(xs)) <==> xs == []
  {
    if xs != [] {
      assert 1 in Numbered(xs);
    }
  }

  // ---- strings without carriage returns ------------------------------------

  predicate NoReturn(s: string) {
    '\r' !in s
  }

  predicate NoReturns(m: map<string, string>) {
    forall k :: k in m ==> NoReturn(k) && NoReturn(m[k])
  }

  // ---- what a write and a read change --------------------------------------

  /** Trees that lose nothing but the float64 form of whole numbers. */
  ghost predicate Clean(v: Value)
    decreases v
  {
    match v
    case Nil => false
    case Bool(_) => true
    case Int(n) => InInt64(n)
    case Dec(_) => true
    case Str(s) => '\r' !in s
    case Table(num, rec) =>
      && (forall k :: k in num <==> 1 <= k <= |num|)
      && (forall k :: k in num ==> Clean(num[k]) && !MistakenForKey(num[k]))
      && (forall k :: k in rec ==> '\r' !in k && Clean(rec[k]))
  }

  /** The tree with whole decimals as integers. */
  ghost function Normal(v: Value): Value
    decreases v
  {
    match v
    case Dec(u) => DecBack(u)
    case Table(num, rec) =>
      Table(map k | k in num :: Normal(num[k]), map k | k in rec :: Normal(rec[k]))
    case _ => v
  }

  lemma {:induction false} CleanIsReadable(v: Value)
    requires Clean(v)
    ensures Readable(v)
    decreases v
  {
    if v.Table? {
      forall k | k in v.num ensures Readable(v.num[k]) { CleanIsReadable(v.num[k]); }
      forall k | k in v.rec ensures Readable(v.rec[k]) { CleanIsReadable(v.rec[k]); }
    }
  }

  lemma {:induction false} CleanBack(v: Value)
    requires Clean(v)
    ensures ReadBack(v) == Normal(v)
    decreases v
  {
    if v.Str? {
      StrBackKeeps(v.s);
    } else if v.Table? {
      forall k | k in v.num ensures ReadBack(v.num[k]) == Normal(v.num[k]) { CleanBack(v.num[k]); }
      forall k | k in v.rec ensures ReadBack(v.rec[k]) == Normal(v.rec[k]) { CleanBack(v.rec[k]); }
      DenseNumBack(v);
      RecBack(v);
      SameTable(ReadBack(v), Normal(v));
    }
  }

  /** Parse after Write on a clean table. */
  lemma {:induction false} CleanFileBack(v: Value)
    requires Clean(v) && Writable(v)
    ensures Read(FileText(v)) == Ok(Normal(v))
  {
    CleanIsReadable(v);
    CleanBack(v);
    FileBack(v);
  }

  lemma {:induction false} CleanArray(xs: seq<Value>)
    requires forall x :: x in xs ==> Clean(x) && !MistakenForKey(x)
    ensures Clean(ArrayOf(xs))
  {
    var num := Numbered(xs);
    forall k | k in num ensures num[k] in xs {
    }
  }

  // ---- looking into normal forms -------------------------------------------

  lemma {:induction false} NormalShape(v: Value)
    requires v.Table?
    ensures Normal(v).Table? && Normal(v).rec.Keys == v.rec.Keys && Normal(v).num.Keys == v.num.Keys
    ensures IsMap(v) <==> IsMap(Normal(v))
    ensures IsArray(v) <==> IsArray(Normal(v))
    ensures |Normal(v).rec| == |v.rec|
  {
    var w := Normal(v);
    forall k | k in v.num ensures k in w.num {}
    forall k | k in w.num ensures k in v.num {}
    SameCount(w.rec, v.rec);
    if v.rec == map[] { assert w.rec == map[]; }
    if w.rec == map[] { assert v.rec.Keys == {}; }
    NoKeys(v.num);
    NoKeys(w.num);
  }

  lemma SameCount<T, U>(a: map<T, U>, b: map<T, U>)
    requires a.Keys == b.Keys
    ensures |a| == |b|
  {
    assert |a| == |a.Keys| && |b| == |b.Keys|;
  }

  lemma {:induction false} NoKeys(num: map<int, Value>)
    ensures num == map[] <==> forall k :: k !in num
  {
    if forall k :: k !in num {
      assert num == map[];
    }
  }

  lemma {:induction false} NormalElements(v: Value)
    requires v.Table?
    ensures |Elements(Normal(v))| == |Elements(v)|
    ensures forall i :: 0 <= i < |Elements(v)| ==> Elements(Normal(v))[i] == Normal(Elements(v)[i])
  {
    NormalShape(v);
    assert |v.num.Keys| == |Normal(v).num.Keys|;
    var ks := SortedKeys.Ints(v.num.Keys);
    forall i | 0 <= i < |Elements(v)| ensures Elements(Normal(v))[i] == Normal(Elements(v)[i]) {
      assert ks[i] in ks;
    }
  }

  // ---- loading each entry --------------------------------------------------

  /** r is what loading each value of rec gives, Nothing when one does not load. */
  ghost predicate LoadsMap<T>(rec: map<string, Value>, load: Value -> Maybe<T>, r: Maybe<map<string, T>>) {
    if r.Nothing? then exists k :: k in rec && load(rec[k]).Nothing?
    else r.value.Keys == rec.Keys && forall k :: k in rec ==> load(rec[k]) == Just(r.value[k])
  }

  function LoadMap<T>(rec: map<string, Value>, load: Value -> Maybe<T>): (r: Maybe<map<string, T>>)
    ensures LoadsMap(rec, load, r)
  {
    if exists k :: k in rec && load(rec[k]).Nothing? then Nothing
    else Just(map k | k in rec :: load(rec[k]).value)
  }

  lemma LoadsMapOnce<T>(rec: map<string, Value>, load: Value -> Maybe<T>, r: Maybe<map<string, T>>)
    requires LoadsMap(rec, load, r)
    ensures r == LoadMap(rec, load)
  {
    var want := LoadMap(rec, load);
    if r.Just? && want.Just? {
      forall k | k in rec ensures r.value[k] == want.value[k] {
        assert load(rec[k]) == Just(want.value[k]);
      }
      assert r.value == want.value;
    }
  }

  ghost predicate LoadsSeq<T>(xs: seq<Value>, load: Value -> Maybe<T>, r: Maybe<seq<T>>) {
    if r.Nothing? then exists i :: 0 <= i < |xs| && load(xs[i]).Nothing?
    else |r.value| == |xs| && forall i :: 0 <= i < |xs| ==> load(xs[i]) == Just(r.value[i])
  }

  function LoadSeq<T>(xs: seq<Value>, load: Value -> Maybe<T>): (r: Maybe<seq<T>>)
    ensures LoadsSeq(xs, load, r)
  {
    if exists i :: 0 <= i < |xs| && load(xs[i]).Nothing? then Nothing
    else Just(seq(|xs|, i requires 0 <= i < |xs| && load(xs[i]).Just? => load(xs[i]).value))
  }

  lemma LoadsSeqOnce<T>(xs: seq<Value>, load: Value -> Maybe<T>, r: Maybe<seq<T>>)
    requires LoadsSeq(xs, load, r)
    ensures r == LoadSeq(xs, load)
  {
    var want := LoadSeq(xs, load);
    if r.Just? && want.Just? {
      forall i | 0 <= i < |xs| ensures r.value[i] == want.value[i] {
        assert load(xs[i]) == Just(want.value[i]);
      }
      assert r.value == want.value;
    }
  }

  function StoreMap<T>(m: map<string, T>, store: T --> Value): (rec: map<string, Value>)
    requires forall k :: k in m ==> store.requires(m[k])
    ensures rec.Keys == m.Keys && forall k :: k in m ==> rec[k] == store(m[k])
  {
    map k | k in m :: store(m[k])
  }

  function StoreSeq<T>(xs: seq<T>, store: T --> Value): (r: seq<Value>)
    requires forall i :: 0 <= i < |xs| ==> store.requires(xs[i])
    ensures |r| == |xs| && forall i :: 0 <= i < |xs| ==> r[i] == store(xs[i])
  {
    seq(|xs|, i requires 0 <= i < |xs| && store.requires(xs[i]) => store(xs[i]))
  }

  function MapValues<T, U>(m: map<string, T>, f: T -> U): (r: map<string, U>)
    ensures r.Keys == m.Keys && forall k :: k in m ==> r[k] == f(m[k])
  {
    map k | k in m :: f(m[k])
  }

  function MapSeq<T, U>(xs: seq<T>, f: T -> U): (r: seq<U>)
    ensures |r| == |xs| && forall i :: 0 <= i < |xs| ==> r[i] == f(xs[i])
  {
    seq(|xs|, i requires 0 <= i < |xs| => f(xs[i]))
  }

  /** What is stored entry by entry is loaded entry by entry. */
  lemma StoreLoadMap<T>(m: map<string, T>, store: T --> Value, load: Value -> Maybe<T>, keep: T -> T)
    requires forall k :: k in m ==> store.requires(m[k]) && load(store(m[k])) == Just(keep(m[k]))
    ensures LoadMap(StoreMap(m, store), load) == Just(MapValues(m, keep))
  {
    LoadsMapOnce(StoreMap(m, store), load, Just(MapValues(m, keep)));
  }

  lemma StoreLoadSeq<T>(xs: seq<T>, store: T --> Value, load: Value -> Maybe<T>, keep: T -> T)
    requires forall i :: 0 <= i < |xs| ==> store.requires(xs[i]) && load(store(xs[i])) == Just(keep(xs[i]))
    ensures LoadSeq(StoreSeq(xs, store), load) == Just(MapSeq(xs, keep))
  {
    LoadsSeqOnce(StoreSeq(xs, store), load, Just(MapSeq(xs, keep)));
  }

  /** The source's loops `for k, v := range rec`, in whatever order. */
  method LoadEntries<T>(rec: map<string, Value>, load: Value -> Maybe<T>) returns (r: Maybe<map<string, T>>)
    ensures r == LoadMap(rec, load)
  {
    var left := rec.Keys;
    var out: map<string, T> := map[];
    while left != {}
      invariant left <= rec.Keys && out.Keys == rec.Keys - left
      invariant forall k :: k in out ==> load(rec[k]) == Just(out[k])
      decreases |left|
    {
      var k :| k in left;
      var v := load(rec[k]);
      if v.Nothing? {
        LoadsMapOnce<T>(rec, load, Nothing);
        return Nothing;
      }
      out := out[k := v.value];
      left := left - {k};
    }
    LoadsMapOnce(rec, load, Just(out));
    return Just(out);
  }

  method LoadList<T>(xs: seq<Value>, load: Value -> Maybe<T>) returns (r: Maybe<seq<T>>)
    ensures r == LoadSeq(xs, load)
  {
    var out: seq<T> := [];
    for i := 0 to |xs|
      invariant |out| == i
      invariant forall j :: 0 <= j < i ==> load(xs[j]) == Just(out[j])
    {
      var v := load(xs[i]);
      if v.Nothing? {
        LoadsSeqOnce<T>(xs, load, Nothing);
        return Nothing;
      }
      out := out + [v.value];
    }
    LoadsSeqOnce(xs, load, Just(out));
    return Just(out);
  }

  method StoreEntries<T>(m: map<string, T>, store: T --> Value) returns (out: map<string, Value>)
    requires forall k :: k in m ==> store.requires(m[k])
    ensures out == StoreMap(m, store)
  {
    var left := m.Keys;
    out := map[];
    while left != {}
      invariant left <= m.Keys && out.Keys == m.Keys - left
      invariant forall k :: k in out ==> out[k] == store(m[k])
      decreases |left|
    {
      var k :| k in left;
      out := out[k := store(m[k])];
      left := left - {k};
    }
  }

  method StoreList<T>(xs: seq<T>, store: T --> Value) returns (out: seq<Value>)
    requires forall i :: 0 <= i < |xs| ==> store.requires(xs[i])
    ensures out == StoreSeq(xs, store)
  {
    out := [];
    for i := 0 to |xs|
      invariant |out| == i
      invariant forall j :: 0 <= j < i ==> out[j] == store(xs[j])
    {
      out := out + [store(xs[i])];
    }
  }

  /** The first n elements are stored. */
  ghost predicate StoredSeqTo<T>(xs: seq<T>, store: T --> Value, arr: seq<Value>, n: nat)
    requires forall i :: 0 <= i < |xs| ==> store.requires(xs[i])
  {
    |arr| == n <= |xs| && forall i :: 0 <= i < n ==> arr[i] == store(xs[i])
  }

  lemma StoredSeqNext<T>(xs: seq<T>, store: T --> Value, arr: seq<Value>, n: nat, v: Value)
    requires forall i :: 0 <= i < |xs| ==> store.requires(xs[i])
    requires StoredSeqTo(xs, store, arr, n) && n < |xs| && v == store(xs[n])
    ensures StoredSeqTo(xs, store, arr + [v], n + 1)
  {
  }

  lemma StoredSeqAll<T>(xs: seq<T>, store: T --> Value, arr: seq<Value>)
    requires forall i :: 0 <= i < |xs| ==> store.requires(xs[i])
    requires StoredSeqTo(xs, store, arr, |xs|)
    ensures arr == StoreSeq(xs, store)
  {
  }

  /** What out holds is stored from m. */
  ghost predicate StoredMapTo<T>(m: map<string, T>, store: T --> Value, out: map<string, Value>)
    requires forall k :: k in m ==> store.requires(m[k])
  {
    forall k :: k in out ==> k in m && out[k] == store(m[k])
  }

  lemma StoredMapAll<T>(m: map<string, T>, store: T --> Value, out: map<string, Value>)
    requires forall k :: k in m ==> store.requires(m[k])
    requires out.Keys == m.Keys && StoredMapTo(m, store, out)
    ensures out == StoreMap(m, store)
  {
  }

  /** A loader that does not tell whole decimals from integers. */
  ghost predicate Blind<T>(load: Value -> Maybe<T>) {
    forall v :: load(Normal(v)) == load(v)
  }

  lemma {:induction false} BlindMap<T>(v: Value, load: Value -> Maybe<T>)
    requires v.Table? && Blind(load)
    ensures LoadMap(Normal(v).rec, load) == LoadMap(v.rec, load)
  {
    NormalShape(v);
    ghost var r := LoadMap(v.rec, load);
    ghost var a, b := v.rec, Normal(v).rec;
    forall k | k in a ensures load(b[k]) == load(a[k]) {
      assert b[k] == Normal(a[k]);
    }
    LoadsMapOnce(b, load, r);
  }

  lemma {:induction false} BlindSeq<T>(v: Value, load: Value -> Maybe<T>)
    requires v.Table? && Blind(load)
    ensures LoadSeq(Elements(Normal(v)), load) == LoadSeq(Elements(v), load)
  {
    NormalElements(v);
    ghost var r := LoadSeq(Elements(v), load);
    ghost var a, b := Elements(v), Elements(Normal(v));
    forall i | 0 <= i < |a| ensures load(b[i]) == load(a[i]) {
      assert b[i] == Normal(a[i]);
    }
    LoadsSeqOnce(b, load, r);
  }
}
