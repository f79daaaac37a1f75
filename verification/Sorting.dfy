/** sort.SliceStable with a caller's `less`, and the left-to-right scan for a best
    element.  Up to 20 elements the library runs exactly this insertion sort; beyond
    that it merges insertion-sorted blocks, which on a strict weak order gives the same
    result (StableIsSorted). */
module Sorting {

  /** The most elements that the library sorts by insertion alone. */
  const INSERTION_LIMIT := 20

  /** What StrictOrder lemmas provide: less is irreflexive and transitive. */
  ghost predicate StrictOn<T(!new)>(less: (T, T) -> bool, s: seq<T>) {
    && (forall x :: x in s ==> !less(x, x))
    && (forall x, y, z :: x in s && y in s && z in s && less(x, y) && less(y, z) ==> less(x, z))
  }

  /** Incomparability is transitive as well. */
  ghost predicate WeakOn<T(!new)>(less: (T, T) -> bool, s: seq<T>) {
    && StrictOn(less, s)
    && (forall x, y, z :: x in s && y in s && z in s && less(x, z) ==> less(x, y) || less(y, z))
  }

  // ---- insertion sort --------------------------------------------------------

  /** Where x comes to rest moving forward past every neighbour it is less than. */
  function Rest<T>(less: (T, T) -> bool, s: seq<T>, x: T): (k: nat)
    ensures k <= |s|
    ensures k > 0 ==> !less(x, s[k - 1])
    ensures forall j :: k <= j < |s| ==> less(x, s[j])
  {
    if s == [] || !less(x, s[|s| - 1]) then |s| else Rest(less, s[..|s| - 1], x)
  }

  function Insert<T>(less: (T, T) -> bool, s: seq<T>, x: T): seq<T> {
    s[..Rest(less, s, x)] + [x] + s[Rest(less, s, x)..]
  }

  function Sorted<T>(less: (T, T) -> bool, s: seq<T>): (r: seq<T>)
    ensures |r| == |s|
  {
    if s == [] then [] else Insert(less, Sorted(less, s[..|s| - 1]), s[|s| - 1])
  }

  lemma {:induction false} RestIs<T>(less: (T, T) -> bool, s: seq<T>, x: T, k: nat)
    requires k <= |s| && (k > 0 ==> !less(x, s[k - 1]))
    requires forall j :: k <= j < |s| ==> less(x, s[j])
    ensures Rest(less, s, x) == k
  {
    if k < |s| {
      RestIs(less, s[..|s| - 1], x, k);
    }
  }

  lemma {:induction false} SortedPermutes<T>(less: (T, T) -> bool, s: seq<T>)
    ensures multiset(Sorted(less, s)) == multiset(s)
  {
    if s != [] {
      var t, x := Sorted(less, s[..|s| - 1]), s[|s| - 1];
      SortedPermutes(less, s[..|s| - 1]);
      assert s == s[..|s| - 1] + [x];
      assert t == t[..Rest(less, t, x)] + t[Rest(less, t, x)..];
    }
  }

  lemma {:induction false} SortedElements<T>(less: (T, T) -> bool, s: seq<T>)
    ensures forall x :: x in Sorted(less, s) <==> x in s
  {
    SortedPermutes(less, s);
    forall x ensures x in Sorted(less, s) <==> x in s {
      assert x in Sorted(less, s) <==> x in multiset(Sorted(less, s));
      assert x in s <==> x in multiset(s);
    }
  }

  /** No element is less than an earlier one. */
  ghost predicate Ordered<T(!new)>(less: (T, T) -> bool, s: seq<T>) {
    forall i, j :: 0 <= i < j < |s| ==> !less(s[j], s[i])
  }

  lemma WeakChain<T(!new)>(less: (T, T) -> bool, s: seq<T>, x: T, y: T, z: T)
    requires WeakOn(less, s) && x in s && y in s && z in s
    ensures !less(x, y) && !less(y, z) ==> !less(x, z)
    ensures less(x, y) ==> !less(y, x)
  {
  }

  lemma {:induction false} InsertOrdered<T(!new)>(less: (T, T) -> bool, t: seq<T>, x: T)
    requires WeakOn(less, t + [x]) && Ordered(less, t)
    ensures Ordered(less, Insert(less, t, x))
  {
    var k, r := Rest(less, t, x), Insert(less, t, x);
    assert forall j :: 0 <= j < |t| ==> t[j] in t + [x];
    assert x in t + [x];
    forall i, j | 0 <= i < j < |r| ensures !less(r[j], r[i]) {
      if j == k {
        // x rests behind t[k - 1], which is not less than t[i].
        WeakChain(less, t + [x], x, t[k - 1], t[i]);
      } else if i == k {
        WeakChain(less, t + [x], x, t[j - 1], x);
      }
    }
  }

  lemma {:induction false} SortedOrdered<T(!new)>(less: (T, T) -> bool, s: seq<T>)
    requires WeakOn(less, s)
    ensures Ordered(less, Sorted(less, s))
  {
    if s != [] {
      var u, x := s[..|s| - 1], s[|s| - 1];
      assert s == u + [x];
      SortedOrdered(less, u);
      SortedElements(less, u);
      assert forall y :: y in Sorted(less, u) + [x] ==> y in s;
      InsertOrdered(less, Sorted(less, u), x);
    }
  }

  /** The elements that satisfy p, in order. */
  function Keep<T(!new)>(s: seq<T>, p: T -> bool): (r: seq<T>)
    ensures forall x :: x in r <==> x in s && p(x)
  {
    if s == [] then [] else
      assert s == s[..|s| - 1] + [s[|s| - 1]];
      if p(s[|s| - 1]) then Keep(s[..|s| - 1], p) + [s[|s| - 1]] else Keep(s[..|s| - 1], p)
  }

  lemma {:induction false} KeepAppend<T(!new)>(a: seq<T>, b: seq<T>, p: T -> bool)
    ensures Keep(a + b, p) == Keep(a, p) + Keep(b, p)
  {
    if b == [] {
      assert a + b == a;
    } else {
      assert (a + b)[..|a + b| - 1] == a + b[..|b| - 1];
      KeepAppend(a, b[..|b| - 1], p);
    }
  }

  lemma {:induction false} KeepNone<T(!new)>(s: seq<T>, p: T -> bool)
    requires forall x :: x in s ==> !p(x)
    ensures Keep(s, p) == []
  {
    if s != [] {
      assert s[|s| - 1] in s;
      KeepNone(s[..|s| - 1], p);
    }
  }

  lemma {:induction false} KeepAround<T(!new)>(a: seq<T>, x: T, b: seq<T>, p: T -> bool)
    ensures Keep(a + [x] + b, p) == Keep(a, p) + (if p(x) then [x] else []) + Keep(b, p)
    ensures Keep(a + b, p) == Keep(a, p) + Keep(b, p)
  {
    KeepAppend(a, b, p);
    KeepAppend(a + [x], b, p);
    KeepAppend(a, [x], p);
    KeepOne(x, p);
  }

  lemma {:induction false} InsertKeeps<T(!new)>(less: (T, T) -> bool, t: seq<T>, x: T, p: T -> bool)
    requires forall y :: y in t && p(x) && p(y) ==> !less(x, y)
    ensures Keep(Insert(less, t, x), p) == Keep(t, p) + if p(x) then [x] else []
  {
    var k := Rest(less, t, x);
    var a, b := t[..k], t[k..];
    assert t == a + b;
    KeepAround(a, x, b, p);
    if p(x) {
      forall y | y in b ensures !p(y) {
        var j :| 0 <= j < |b| && b[j] == y;
        assert b[j] == t[k + j] && t[k + j] in t;
      }
      KeepNone(b, p);
    }
  }

  /** Stability: elements of which none is less than another keep their order. */
  lemma {:induction false} SortedKeeps<T(!new)>(less: (T, T) -> bool, s: seq<T>, p: T -> bool)
    requires forall x, y :: x in s && y in s && p(x) && p(y) ==> !less(x, y)
    ensures Keep(Sorted(less, s), p) == Keep(s, p)
  {
    if s != [] {
      var u, x := s[..|s| - 1], s[|s| - 1];
      assert s == u + [x];
      SortedKeeps(less, u, p);
      SortedElements(less, u);
      InsertKeeps(less, Sorted(less, u), x, p);
    }
  }

  lemma {:induction false} KeepOne<T(!new)>(x: T, p: T -> bool)
    ensures Keep([x], p) == if p(x) then [x] else []
  {
    assert [x][..0] == [];
  }

  // ---- every stable sort -----------------------------------------------------

  function TiesWith<T>(less: (T, T) -> bool, x: T): T -> bool {
    y => !less(x, y) && !less(y, x)
  }

  /** Elements that tie stand in r in the order they have in s. */
  ghost predicate KeepsTies<T(!new)>(less: (T, T) -> bool, s: seq<T>, r: seq<T>) {
    forall x :: x in s ==> Keep(r, TiesWith(less, x)) == Keep(s, TiesWith(less, x))
  }

  /** What sort.SliceStable may make of s: insertion sort up to its limit; beyond it some
      permutation, in order and stable when less is a strict weak order. */
  ghost predicate SortsTo<T(!new)>(less: (T, T) -> bool, s: seq<T>, r: seq<T>) {
    && multiset(r) == multiset(s)
    && (|s| <= INSERTION_LIMIT ==> r == Sorted(less, s))
    && (WeakOn(less, s) ==> Ordered(less, r) && KeepsTies(less, s, r))
  }

  lemma SameMembers<T>(s: seq<T>, r: seq<T>)
    requires multiset(r) == multiset(s)
    ensures |r| == |s| && forall x :: x in r <==> x in s
  {
    assert |r| == |multiset(r)| && |s| == |multiset(s)|;
    forall x ensures x in r <==> x in s {
      assert x in r <==> x in multiset(r);
      assert x in s <==> x in multiset(s);
    }
  }

  lemma {:induction false} KeepLast<T(!new)>(s: seq<T>, p: T -> bool)
    requires s != []
    ensures Keep(s, p) == Keep(s[..|s| - 1], p) + if p(s[|s| - 1]) then [s[|s| - 1]] else []
  {
  }

  /** The last elements of two ordered arrangements tie. */
  lemma {:induction false} LastTies<T(!new)>(less: (T, T) -> bool, r: seq<T>, t: seq<T>)
    requires r != [] && |t| == |r| && (forall x :: x in r <==> x in t)
    requires StrictOn(less, r) && Ordered(less, r) && Ordered(less, t)
    ensures var n := |r| - 1; TiesWith(less, r[n])(t[n]) && TiesWith(less, r[n])(r[n])
  {
    var n := |r| - 1;
    assert r[n] in t && t[n] in r && r[n] in r;
    var i :| 0 <= i <= n && t[i] == r[n];
    var j :| 0 <= j <= n && r[j] == t[n];
  }

  lemma EndsAlike<T>(a: seq<T>, x: T, b: seq<T>, y: T)
    requires a + [x] == b + [y]
    ensures a == b && x == y
  {
    assert |a + [x]| == |b + [y]|;
    assert (a + [x])[..|a|] == a && (b + [y])[..|b|] == b;
    assert (a + [x])[|a|] == x && (b + [y])[|b|] == y;
  }

  /** Two ordered arrangements with the same order among ties end alike. */
  lemma {:induction false} SameLast<T(!new)>(less: (T, T) -> bool, r: seq<T>, t: seq<T>)
    requires r != [] && |t| == |r| && (forall x :: x in r <==> x in t)
    requires StrictOn(less, r) && Ordered(less, r) && Ordered(less, t) && KeepsTies(less, r, t)
    ensures t[|r| - 1] == r[|r| - 1]
  {
    var n := |r| - 1;
    var p := TiesWith(less, r[n]);
    LastTies(less, r, t);
    assert r[n] in r;
    KeepLast(r, p);
    KeepLast(t, p);
    EndsAlike(Keep(r[..n], p), r[n], Keep(t[..n], p), t[n]);
  }

  lemma {:induction false} InitKeeps<T(!new)>(r: seq<T>, t: seq<T>, p: T -> bool)
    requires r != [] && |t| == |r| && t[|r| - 1] == r[|r| - 1] && Keep(t, p) == Keep(r, p)
    ensures Keep(t[..|r| - 1], p) == Keep(r[..|r| - 1], p)
  {
    var n := |r| - 1;
    KeepLast(r, p);
    KeepLast(t, p);
    if p(r[n]) {
      EndsAlike(Keep(r[..n], p), r[n], Keep(t[..n], p), t[n]);
    }
  }

  lemma {:induction false} InitKeepsTies<T(!new)>(less: (T, T) -> bool, r: seq<T>, t: seq<T>)
    requires r != [] && |t| == |r| && t[|r| - 1] == r[|r| - 1] && KeepsTies(less, r, t)
    ensures KeepsTies(less, r[..|r| - 1], t[..|r| - 1])
  {
    var n := |r| - 1;
    forall x | x in r[..n] ensures Keep(t[..n], TiesWith(less, x)) == Keep(r[..n], TiesWith(less, x)) {
      assert x in r;
      InitKeeps(r, t, TiesWith(less, x));
    }
  }

  lemma {:induction false} InitSame<T>(r: seq<T>, t: seq<T>)
    requires r != [] && |t| == |r| && t[|r| - 1] == r[|r| - 1] && multiset(r) == multiset(t)
    ensures multiset(r[..|r| - 1]) == multiset(t[..|r| - 1])
  {
    var n := |r| - 1;
    assert r == r[..n] + [r[n]] && t == t[..n] + [r[n]];
    assert multiset(r[..n]) == multiset(r) - multiset{r[n]};
    assert multiset(t[..n]) == multiset(t) - multiset{r[n]};
  }

  lemma InitOrdered<T(!new)>(less: (T, T) -> bool, r: seq<T>)
    requires r != [] && Ordered(less, r)
    ensures Ordered(less, r[..|r| - 1])
  {
  }

  lemma InitStrict<T(!new)>(less: (T, T) -> bool, r: seq<T>)
    requires r != [] && StrictOn(less, r)
    ensures StrictOn(less, r[..|r| - 1])
  {
    assert forall x :: x in r[..|r| - 1] ==> x in r;
  }

  lemma {:induction false} StableUnique<T(!new)>(less: (T, T) -> bool, r: seq<T>, t: seq<T>)
    requires multiset(r) == multiset(t) && StrictOn(less, r) && Ordered(less, r) && Ordered(less, t)
    requires KeepsTies(less, r, t)
    ensures t == r
  {
    SameMembers(r, t);
    if r != [] {
      var n := |r| - 1;
      SameLast(less, r, t);
      InitKeepsTies(less, r, t);
      InitSame(r, t);
      InitStrict(less, r);
      InitOrdered(less, r);
      InitOrdered(less, t);
      StableUnique(less, r[..n], t[..n]);
      assert r == r[..n] + [r[n]] && t == t[..n] + [r[n]];
    }
  }

  lemma {:induction false} SortedKeepsTies<T(!new)>(less: (T, T) -> bool, s: seq<T>)
    requires WeakOn(less, s)
    ensures KeepsTies(less, s, Sorted(less, s))
  {
    forall x | x in s ensures Keep(Sorted(less, s), TiesWith(less, x)) == Keep(s, TiesWith(less, x)) {
      SortedKeeps(less, s, TiesWith(less, x));
    }
  }

  /** On a strict weak order, or up to the limit, the library's result is insertion sort's,
      whichever way it works. */
  lemma {:induction false} StableIsSorted<T(!new)>(less: (T, T) -> bool, s: seq<T>, r: seq<T>)
    requires SortsTo(less, s, r) && (WeakOn(less, s) || |s| <= INSERTION_LIMIT)
    ensures r == Sorted(less, s)
  {
    if |s| > INSERTION_LIMIT {
      var t := Sorted(less, s);
      SortedPermutes(less, s);
      SortedOrdered(less, s);
      SortedKeepsTies(less, s);
      SameMembers(s, r);
      KeepsTiesBoth(less, s, r, t);
      StableUnique(less, r, t);
    }
  }

  /** Insertion sort is one way to sort. */
  lemma {:induction false} SortedGoes<T(!new)>(less: (T, T) -> bool, s: seq<T>)
    ensures SortsTo(less, s, Sorted(less, s))
  {
    SortedPermutes(less, s);
    if WeakOn(less, s) {
      SortedOrdered(less, s);
      SortedKeepsTies(less, s);
    }
  }

  lemma KeepsTiesBoth<T(!new)>(less: (T, T) -> bool, s: seq<T>, r: seq<T>, t: seq<T>)
    requires KeepsTies(less, s, r) && KeepsTies(less, s, t) && forall x :: x in r ==> x in s
    ensures KeepsTies(less, r, t)
  {
  }

  /** A scan picks the same element before and after the sort, on every strict order. */
  lemma {:induction false} ScanSorted<T(!new)>(less: (T, T) -> bool, s: seq<T>)
    requires s != [] && StrictOn(less, s)
    ensures Scan(less, Sorted(less, s)) == Scan(less, s)
  {
    var u, x := s[..|s| - 1], s[|s| - 1];
    assert s == u + [x];
    if u == [] {
      assert Sorted(less, s) == [x];
    } else {
      var t := Sorted(less, u);
      ScanSorted(less, u);
      SortedElements(less, u);
      assert forall y :: y in t + [x] ==> y in s;
      ScanInsert(less, t, x);
    }
  }

  lemma {:induction false} ScanAppend<T>(less: (T, T) -> bool, a: seq<T>, x: T)
    requires a != []
    ensures Scan(less, a + [x]) == if less(x, Scan(less, a)) then x else Scan(less, a)
  {
    assert (a + [x])[..|a|] == a;
  }

  /** Scanning on from a: the result is a's own pick or less than it. */
  lemma {:induction false} ScanOn<T(!new)>(less: (T, T) -> bool, a: seq<T>, b: seq<T>)
    requires a != [] && StrictOn(less, a + b)
    ensures var r := Scan(less, a + b); r == Scan(less, a) || (r in b && less(r, Scan(less, a)))
  {
    if b == [] {
      assert a + b == a;
    } else {
      var n := |b| - 1;
      assert a + b == (a + b[..n]) + [b[n]] && b == b[..n] + [b[n]];
      assert forall y :: y in a + b[..n] ==> y in a + b;
      ScanOn(less, a, b[..n]);
      ScanAppend(less, a + b[..n], b[n]);
      assert Scan(less, a) in a + b && b[n] in a + b && Scan(less, a + b[..n]) in a + b;
    }
  }

  /** Two scans that have the same pick so far have the same pick in the end. */
  lemma {:induction false} ScanFrom<T>(less: (T, T) -> bool, a: seq<T>, c: seq<T>, b: seq<T>)
    requires a != [] && c != [] && Scan(less, a) == Scan(less, c)
    ensures Scan(less, a + b) == Scan(less, c + b)
  {
    if b == [] {
      assert a + b == a && c + b == c;
    } else {
      var n := |b| - 1;
      assert a + b == (a + b[..n]) + [b[n]] && c + b == (c + b[..n]) + [b[n]];
      ScanFrom(less, a, c, b[..n]);
      ScanAppend(less, a + b[..n], b[n]);
      ScanAppend(less, c + b[..n], b[n]);
    }
  }

  /** Nothing behind x is picked when x is less than all of it. */
  lemma {:induction false} ScanStays<T(!new)>(less: (T, T) -> bool, a: seq<T>, x: T, b: seq<T>)
    requires StrictOn(less, a + [x] + b) && Scan(less, a + [x]) == x && forall y :: y in b ==> less(x, y)
    ensures Scan(less, a + [x] + b) == x
  {
    ScanOn(less, a + [x], b);
    assert x in a + [x] + b;
    assert forall y :: y in b ==> y in a + [x] + b;
  }

  lemma {:induction false} ScanInsert<T(!new)>(less: (T, T) -> bool, t: seq<T>, x: T)
    requires t != [] && StrictOn(less, t + [x])
    ensures Scan(less, Insert(less, t, x)) == Scan(less, t + [x])
  {
    var k := Rest(less, t, x);
    var a, b := t[..k], t[k..];
    assert t == a + b && Insert(less, t, x) == a + [x] + b;
    assert forall y :: y in a + [x] + b <==> y in t + [x];
    assert forall y :: y in b ==> less(x, y);
    ScanAppend(less, t, x);
    assert Scan(less, t) in t;
    if a == [] {
      assert t == b && [] + [x] == [x];
      ScanStays(less, [], x, b);
    } else {
      ScanOn(less, a, b);
      ScanAppend(less, a, x);
      assert Scan(less, a) in t + [x];
      if less(x, Scan(less, a)) {
        ScanStays(less, a, x, b);
      } else {
        ScanFrom(less, a, a + [x], b);
      }
    }
  }

  method BubbleForward<T>(a: array<T>, less: (T, T) -> bool, i: nat)
    requires i < a.Length
    modifies a
    ensures a[..i + 1] == Insert(less, old(a[..i]), old(a[i]))
    ensures a[i + 1..] == old(a[i + 1..])
  {
    ghost var s, x := a[..i], a[i];
    var j := i;
    while j > 0 && less(a[j], a[j - 1])
      invariant j <= i && a[j] == x
      invariant forall k :: 0 <= k < j ==> a[k] == s[k]
      invariant forall k :: j < k <= i ==> a[k] == s[k - 1]
      invariant forall m :: j <= m < i ==> less(x, s[m])
      invariant a[i + 1..] == old(a[i + 1..])
    {
      a[j], a[j - 1] := a[j - 1], a[j];
      j := j - 1;
    }
    RestIs(less, s, x, j);
  }

  /** sort.SliceStable, in place. */
  method SliceStable<T>(a: array<T>, less: (T, T) -> bool)
    modifies a
    ensures a[..] == Sorted(less, old(a[..]))
  {
    ghost var was := a[..];
    var i := 0;
    while i < a.Length
      invariant i <= a.Length
      invariant a[..i] == Sorted(less, was[..i]) && a[i..] == was[i..]
    {
      assert was[..i + 1][..i] == was[..i] && a[i] == was[i];
      BubbleForward(a, less, i);
      i := i + 1;
      assert a[i..] == was[i..];
    }
    assert a[..] == a[..i] && was[..i] == was;
  }

  // ---- picking the least -----------------------------------------------------

  /** The element a scan keeps: each strictly smaller one replaces it. */
  function Scan<T>(less: (T, T) -> bool, s: seq<T>): (r: T)
    requires s != []
    ensures r in s
  {
    if |s| == 1 then s[0]
    else
      var best, x := Scan(less, s[..|s| - 1]), s[|s| - 1];
      if less(x, best) then x else best
  }

  /** No element is less than r. */
  ghost predicate Minimal<T(!new)>(less: (T, T) -> bool, r: T, s: seq<T>) {
    r in s && forall x :: x in s ==> !less(x, r)
  }

  /** A strict order suffices for the scan's pick to be minimal. */
  lemma {:induction false} ScanMinimal<T(!new)>(less: (T, T) -> bool, s: seq<T>)
    requires s != [] && StrictOn(less, s)
    ensures Minimal(less, Scan(less, s), s)
  {
    if |s| > 1 {
      var t, x := s[..|s| - 1], s[|s| - 1];
      assert s == t + [x];
      ScanMinimal(less, t);
    }
  }

  /** s[i] is minimal and strictly less than everything before it. */
  ghost predicate FirstMinimal<T(!new)>(less: (T, T) -> bool, s: seq<T>, i: nat) {
    i < |s| && (forall j :: 0 <= j < |s| ==> !less(s[j], s[i])) && (forall j :: 0 <= j < i ==> less(s[i], s[j]))
  }

  lemma {:induction false} ScanFirst<T(!new)>(less: (T, T) -> bool, s: seq<T>) returns (i: nat)
    requires s != [] && WeakOn(less, s)
    ensures FirstMinimal(less, s, i) && Scan(less, s) == s[i]
  {
    var n := |s| - 1;
    assert forall j :: 0 <= j <= n ==> s[j] in s;
    if n == 0 {
      i := 0;
    } else {
      var t, x := s[..n], s[n];
      assert s == t + [x];
      i := ScanFirst(less, t);
      if less(x, t[i]) {
        i := n;
      }
    }
  }

  /** On a strict weak order the stable sort starts with the scan's pick. */
  lemma {:induction false} SortedHead<T(!new)>(less: (T, T) -> bool, s: seq<T>)
    requires s != [] && WeakOn(less, s)
    ensures Sorted(less, s)[0] == Scan(less, s)
  {
    if |s| > 1 {
      var u, x := s[..|s| - 1], s[|s| - 1];
      var t := Sorted(less, u);
      assert s == u + [x];
      SortedHead(less, u);
      SortedElements(less, u);
      SortedOrdered(less, u);
      assert t[0] in t && forall j :: 0 <= j < |t| ==> t[j] in t;
      if less(x, t[0]) {
        forall j | 0 <= j < |t| ensures less(x, t[j]) {
        }
        RestIs(less, t, x, 0);
      }
    }
  }
}
