/** Key lists of Go maps in the order `sort.Strings` and `slices.Sort` give them. */
module SortedKeys {
  import opened Text

  // ---- string keys -------------------------------------------------------

  ghost predicate StrictlySorted(ks: seq<string>) {
    forall i, j :: 0 <= i < j < |ks| ==> Less(ks[i], ks[j])
  }

  predicate IsLeast(s: set<string>, k: string) {
    k in s && forall x :: x in s && x != k ==> Less(k, x)
  }

  lemma {:induction false} LeastExists(s: set<string>)
    requires s != {}
    ensures exists k :: IsLeast(s, k)
  {
    var y :| y in s;
    if s == {y} {
      assert IsLeast(s, y);
    } else {
      LeastExists(s - {y});
      var r :| IsLeast(s - {y}, r);
      LessTotal(y, r);
      if Less(y, r) {
        forall x | x in s && x != y ensures Less(y, x) {
          if x != r { LessTransitive(y, r, x); }
        }
        assert IsLeast(s, y);
      } else {
        assert IsLeast(s, r);
      }
    }
  }

  lemma LeastUnique(s: set<string>)
    ensures forall k, l :: IsLeast(s, k) && IsLeast(s, l) ==> k == l
  {
    forall k, l | IsLeast(s, k) && IsLeast(s, l) ensures k == l {
      if k != l { LessAsymmetric(k, l); }
    }
  }

  function Least(s: set<string>): (k: string)
    requires s != {}
    ensures IsLeast(s, k)
  {
    LeastExists(s);
    LeastUnique(s);
    var k :| IsLeast(s, k);
    k
  }

  /** The keys of a string-keyed map after sort.Strings. */
  function Strings(s: set<string>): (ks: seq<string>)
    ensures forall x :: x in ks <==> x in s
    ensures StrictlySorted(ks)
  {
    if s == {} then [] else
      var k := Least(s);
      [k] + Strings(s - {k})
  }

  /** There is only one way to sort a set of keys. */
  lemma {:induction false} SortedUnique(a: seq<string>, b: seq<string>)
    requires StrictlySorted(a) && StrictlySorted(b) && forall x :: x in a <==> x in b
    ensures a == b
  {
    assert a != [] ==> a[0] in b;
    assert b != [] ==> b[0] in a;
    if a != [] && b != [] {
      SameFirst(a, b);
      SortedUnique(a[1..], b[1..]);
      assert a == [a[0]] + a[1..] && b == [b[0]] + b[1..];
    }
  }

  lemma {:induction false} SameFirst(a: seq<string>, b: seq<string>)
    requires a != [] && b != []
    requires StrictlySorted(a) && StrictlySorted(b) && forall x :: x in a <==> x in b
    ensures a[0] == b[0] && forall x :: x in a[1..] <==> x in b[1..]
  {
    assert a[0] in b && b[0] in a;
    var i :| 0 <= i < |b| && b[i] == a[0];
    var j :| 0 <= j < |a| && a[j] == b[0];
    if i > 0 && j > 0 { LessAsymmetric(a[0], b[0]); }
    LessIrreflexive(a[0]);
    forall x ensures x in a[1..] <==> x in b[1..] {
      InTail(a, x);
      InTail(b, x);
    }
  }

  lemma {:induction false} InTail(a: seq<string>, x: string)
    requires a != [] && StrictlySorted(a)
    ensures x in a[1..] <==> x in a && x != a[0]
  {
    assert a == [a[0]] + a[1..];
    if x in a[1..] {
      var i :| 0 <= i < |a[1..]| && a[1..][i] == x;
      assert Less(a[0], a[i + 1]);
      LessIrreflexive(x);
    }
  }

  // ---- integer keys ------------------------------------------------------

  ghost predicate Increasing(ks: seq<int>) {
    forall i, j :: 0 <= i < j < |ks| ==> ks[i] < ks[j]
  }

  predicate IsSmallest(s: set<int>, k: int) {
    k in s && forall x :: x in s ==> k <= x
  }

  lemma {:induction false} NonEmptyHasElement(s: set<int>)
    requires s != {}
    ensures exists y :: y in s
  {
    if forall y :: y !in s {
    }
  }

  lemma {:induction false} SmallestExists(s: set<int>)
    requires s != {}
    ensures exists k :: IsSmallest(s, k)
  {
    NonEmptyHasElement(s);
    var y :| y in s;
    if s == {y} {
      assert IsSmallest(s, y);
    } else {
      var rest := s - {y};
      assert s == rest + {y};
      SmallestExists(rest);
      var r :| IsSmallest(rest, r);
      assert IsSmallest(s, if y < r then y else r);
    }
  }

  function Smallest(s: set<int>): (k: int)
    requires s != {}
    ensures IsSmallest(s, k)
  {
    SmallestExists(s);
    var k :| IsSmallest(s, k);
    k
  }

  /** The keys of an integer-keyed map after slices.Sort. */
  function Ints(s: set<int>): (ks: seq<int>)
    ensures forall x :: x in ks <==> x in s
    ensures Increasing(ks)
    ensures |ks| == |s|
  {
    if s == {} then [] else
      var k := Smallest(s);
      [k] + Ints(s - {k})
  }

  /** A set of n keys is sorted as 1, 2, ..., n exactly when it is {1, ..., n}. */
  lemma {:induction false} DenseInts(s: set<int>, from: int)
    requires forall x :: x in s <==> from <= x < from + |s|
    ensures forall i :: 0 <= i < |s| ==> Ints(s)[i] == from + i
  {
    if s != {} {
      var k := Smallest(s);
      assert from in s;
      DenseInts(s - {k}, from + 1);
    }
  }
}
