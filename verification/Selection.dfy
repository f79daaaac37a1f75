/** Picking the newest of several candidates: the scan of client/client.go and the
    stable sort of deps/resolver.go. */
module Selection {
  import opened Versions
  import opened Constraints
  import opened Rocks
  import opened Sorting

  /** The order both algorithms use: a is strictly newer than b. */
  predicate Newer(a: VersionedRock, b: VersionedRock) {
    Compare(a.version, b.version) > 0
  }

  /** The matching candidates, in order. */
  function Matching(s: seq<VersionedRock>, cs: seq<Constraint>): (r: seq<VersionedRock>)
    ensures forall x :: x in r <==> x in s && Match(x.version, cs)
  {
    if s == [] then []
    else
      assert s == s[..|s| - 1] + [s[|s| - 1]];
      Matching(s[..|s| - 1], cs) + if Match(s[|s| - 1].version, cs) then [s[|s| - 1]] else []
  }

  lemma {:induction false} MatchingStep(s: seq<VersionedRock>, i: nat, cs: seq<Constraint>)
    requires i < |s|
    ensures Matching(s[..i + 1], cs) == Matching(s[..i], cs) + if Match(s[i].version, cs) then [s[i]] else []
  {
    assert s[..i + 1][..i] == s[..i];
  }

  function ScanPick(m: seq<VersionedRock>): Maybe<VersionedRock> {
    if m == [] then Nothing else Just(Scan(Newer, m))
  }

  /** Whether c replaces the best candidate so far. */
  predicate Replaces(c: VersionedRock, best: Maybe<VersionedRock>) {
    best.Nothing? || Newer(c, best.value)
  }

  lemma {:induction false} ScanStep(m: seq<VersionedRock>, c: VersionedRock)
    ensures ScanPick(m + [c]) == if Replaces(c, ScanPick(m)) then Just(c) else ScanPick(m)
  {
    assert (m + [c])[..|m|] == m;
  }

  /** client/client.go's pickNewest. */
  method ScanNewest(candidates: seq<VersionedRock>, cs: seq<Constraint>) returns (best: Maybe<VersionedRock>)
    ensures best == ScanPick(Matching(candidates, cs))
  {
    best := Nothing;
    ghost var m: seq<VersionedRock> := [];
    for i := 0 to |candidates|
      invariant m == Matching(candidates[..i], cs)
      invariant best == ScanPick(m)
    {
      MatchingStep(candidates, i, cs);
      var c := candidates[i];
      if Match(c.version, cs) {
        best := KeepNewer(best, c, m);
        m := m + [c];
      }
    }
    assert candidates[..|candidates|] == candidates;
  }

  /** The scan's turn on a matching candidate. */
  method KeepNewer(best: Maybe<VersionedRock>, c: VersionedRock, ghost m: seq<VersionedRock>)
    returns (r: Maybe<VersionedRock>)
    requires best == ScanPick(m)
    ensures r == ScanPick(m + [c])
  {
    ScanStep(m, c);
    r := if best.Nothing? || Newer(c, best.value) then Just(c) else best;
  }

  function SortPick(m: seq<VersionedRock>): Maybe<VersionedRock> {
    if m == [] then Nothing else Just(Sorted(Newer, m)[0])
  }

  /** deps/resolver.go's pickNewest: filter, sort in place, take the head. */
  method SortedNewest(candidates: seq<VersionedRock>, cs: seq<Constraint>) returns (r: Maybe<VersionedRock>)
    ensures r == SortPick(Matching(candidates, cs))
  {
    var filtered: seq<VersionedRock> := [];
    for i := 0 to |candidates|
      invariant filtered == Matching(candidates[..i], cs)
    {
      assert candidates[..i + 1][..i] == candidates[..i];
      if Match(candidates[i].version, cs) {
        filtered := filtered + [candidates[i]];
      }
    }
    assert candidates[..|candidates|] == candidates;
    if |filtered| == 0 {
      return Nothing;
    }
    var a := new VersionedRock[|filtered|](i requires 0 <= i < |filtered| => filtered[i]);
    assert a[..] == filtered;
    SliceStable(a, Newer);
    return Just(a[..][0]);
  }

  // ---- what the two picks are ------------------------------------------------

  function Components(a: VersionedRock, b: VersionedRock): int {
    CompareFrom(a.version.components, b.version.components, 0)
  }

  predicate HigherRevision(a: VersionedRock, b: VersionedRock) {
    a.version.hasRevision && b.version.hasRevision && a.version.revision > b.version.revision
  }

  /** The order and its pieces, for three candidates. */
  lemma NewerCases(a: VersionedRock, b: VersionedRock, c: VersionedRock)
    ensures Newer(a, b) <==> Components(a, b) > 0 || (Components(a, b) == 0 && HigherRevision(a, b))
    ensures Components(a, b) == -Components(b, a) && Components(a, a) == 0
    ensures Components(a, b) <= 0 && Components(b, c) <= 0 ==>
      Components(a, c) <= 0
      && (Components(a, c) == 0 <==> Components(a, b) == 0 && Components(b, c) == 0)
  {
    ComponentOrder(a.version.components, b.version.components, c.version.components);
    ComponentOrder(a.version.components, a.version.components, a.version.components);
  }

  lemma NewerStrict(s: seq<VersionedRock>)
    ensures StrictOn(Newer, s)
  {
    forall x, y, z | Newer(x, y) && Newer(y, z) ensures Newer(x, z) {
      StrictOrder(x.version, y.version, z.version);
      StrictOrder(y.version, z.version, x.version);
      StrictOrder(z.version, y.version, x.version);
      StrictOrder(x.version, z.version, y.version);
    }
    forall x ensures !Newer(x, x) {
      StrictOrder(x.version, x.version, x.version);
    }
  }

  /** All candidates carry a revision, or none does. */
  ghost predicate Uniform(s: seq<VersionedRock>) {
    forall x, y :: x in s && y in s ==> x.version.hasRevision == y.version.hasRevision
  }

  lemma NewerWeak(s: seq<VersionedRock>)
    requires Uniform(s)
    ensures WeakOn(Newer, s)
  {
    NewerStrict(s);
    forall x, y, z | x in s && y in s && z in s && Newer(x, z) ensures Newer(x, y) || Newer(y, z) {
      UniformOrder(x.version, y.version, z.version);
      StrictOrder(x.version, y.version, z.version);
      StrictOrder(y.version, z.version, x.version);
      StrictOrder(x.version, z.version, y.version);
    }
  }

  /** The scan's pick matches, and no matching candidate is strictly newer. */
  lemma ScanUnbeaten(candidates: seq<VersionedRock>, cs: seq<Constraint>)
    requires Matching(candidates, cs) != []
    ensures var m := Matching(candidates, cs);
      Match(Scan(Newer, m).version, cs) && Minimal(Newer, Scan(Newer, m), m)
  {
    var m := Matching(candidates, cs);
    NewerStrict(m);
    ScanMinimal(Newer, m);
  }

  /** On uniform candidates both algorithms give the first of the newest version, however
      many there are and whichever way the library sorts them. */
  lemma UniformAgree(s: seq<VersionedRock>) returns (i: nat)
    requires s != [] && Uniform(s)
    ensures FirstMinimal(Newer, s, i)
    ensures Scan(Newer, s) == s[i]
    ensures forall r :: SortsTo(Newer, s, r) ==> r != [] && r[0] == s[i]
  {
    NewerWeak(s);
    SortedHead(Newer, s);
    i := ScanFirst(Newer, s);
    forall r | SortsTo(Newer, s, r) ensures r != [] && r[0] == s[i] {
      StableIsSorted(Newer, s, r);
    }
  }

  // ---- when the sort misses the newest ---------------------------------------

  /** The head of the sorted candidates. */
  function Head(s: seq<VersionedRock>): VersionedRock
    requires s != []
  {
    Sorted(Newer, s)[0]
  }

  ghost predicate Passes(x: VersionedRock, p: seq<VersionedRock>) {
    forall y :: y in p ==> Newer(x, y)
  }

  /** One more candidate becomes the head when it is newer than all before it. */
  lemma {:induction false} HeadStep(p: seq<VersionedRock>, x: VersionedRock)
    requires p != []
    ensures Head(p + [x]) == if Passes(x, p) then x else Head(p)
  {
    assert (p + [x])[..|p|] == p;
    var t := Sorted(Newer, p);
    SortedElements(Newer, p);
    var k := Rest(Newer, t, x);
    if k > 0 {
      assert t[k - 1] in p;
    } else {
      forall y | y in p ensures Newer(x, y) {
        assert y in t;
      }
    }
  }

  ghost predicate TopComponents(a: VersionedRock, s: seq<VersionedRock>) {
    forall x :: x in s ==> Components(x, a) <= 0
  }

  ghost predicate IsTop(s: seq<VersionedRock>, i: nat) {
    i < |s| && TopComponents(s[i], s)
  }

  lemma {:induction false} TopExists(s: seq<VersionedRock>) returns (i: nat)
    requires s != []
    ensures IsTop(s, i)
  {
    var n := |s| - 1;
    assert s == s[..n] + [s[n]];
    if n == 0 {
      i := 0;
      NewerCases(s[0], s[0], s[0]);
    } else {
      i := TopExists(s[..n]);
      if Components(s[n], s[i]) > 0 {
        forall x | x in s ensures Components(x, s[n]) <= 0 {
          NewerCases(x, s[i], s[n]);
          NewerCases(s[i], s[n], s[n]);
          NewerCases(s[n], s[n], s[n]);
        }
        i := n;
      }
    }
  }

  /** A candidate of the newest components against any other. */
  lemma {:induction false} TopAgainst(s: seq<VersionedRock>, a: VersionedRock, y: VersionedRock)
    requires TopComponents(a, s) && a in s && y in s
    ensures Newer(y, a) <==> TopComponents(y, s) && HigherRevision(y, a)
    ensures Newer(a, y) <==> !TopComponents(y, s) || HigherRevision(a, y)
  {
    NewerCases(y, a, y);
    NewerCases(a, y, a);
    if Components(y, a) == 0 {
      forall x | x in s ensures Components(x, y) <= 0 {
        NewerCases(x, a, y);
        NewerCases(a, y, a);
      }
    }
  }

  /** The candidates of the newest components among the first k. */
  ghost predicate SomeTop(s: seq<VersionedRock>, k: nat) {
    exists i :: 0 <= i < k && IsTop(s, i)
  }

  ghost predicate TopsRevisioned(s: seq<VersionedRock>, k: nat) {
    forall i :: 0 <= i < k && IsTop(s, i) ==> s[i].version.hasRevision
  }

  /** h is one of the first k, of the newest components, and has their highest revision. */
  ghost predicate Leads(s: seq<VersionedRock>, k: nat, h: VersionedRock)
    requires k <= |s|
  {
    && h in s[..k] && h in s && TopComponents(h, s) && h.version.hasRevision
    && forall i :: 0 <= i < k && IsTop(s, i) ==> !HigherRevision(s[i], h)
  }

  lemma {:induction false} FirstTopLeads(s: seq<VersionedRock>, k: nat)
    requires k < |s| && !SomeTop(s, k) && IsTop(s, k)
    ensures Head(s[..k + 1]) == s[k]
  {
    assert s[..k + 1] == s[..k] + [s[k]];
    if k == 0 {
      assert s[..1] == [s[0]] && Sorted(Newer, [s[0]]) == [s[0]];
    } else {
      forall y | y in s[..k] ensures Newer(s[k], y) {
        var i :| 0 <= i < k && s[..k][i] == y;
        assert !IsTop(s, i);
        TopAgainst(s, s[k], y);
      }
      HeadStep(s[..k], s[k]);
    }
  }

  lemma {:induction false} PassingLeads(s: seq<VersionedRock>, k: nat, h: VersionedRock)
    requires k < |s| && Leads(s, k, h) && TopsRevisioned(s, k + 1) && Newer(s[k], h)
    ensures Leads(s, k + 1, s[k])
  {
    var x := s[k];
    assert s[..k + 1][k] == x;
    TopAgainst(s, h, x);
    assert IsTop(s, k);
    forall i | 0 <= i < k + 1 && IsTop(s, i) ensures !HigherRevision(s[i], x) {
    }
  }

  lemma {:induction false} StayingLeads(s: seq<VersionedRock>, k: nat, h: VersionedRock)
    requires k < |s| && Leads(s, k, h) && TopsRevisioned(s, k + 1) && !Passes(s[k], s[..k])
    ensures Leads(s, k + 1, h)
  {
    var x := s[k];
    assert s[..k + 1] == s[..k] + [x];
    if IsTop(s, k) {
      var y :| y in s[..k] && !Newer(x, y);
      var i :| 0 <= i < k && s[..k][i] == y;
      TopAgainst(s, x, y);
      assert IsTop(s, i) && !HigherRevision(s[i], h);
    }
  }

  lemma {:induction false} NextLeads(s: seq<VersionedRock>, k: nat, h: VersionedRock)
    requires k < |s| && k > 0 && Leads(s, k, h) && h == Head(s[..k]) && TopsRevisioned(s, k + 1)
    ensures Leads(s, k + 1, Head(s[..k + 1]))
  {
    assert s[..k + 1] == s[..k] + [s[k]];
    HeadStep(s[..k], s[k]);
    if Passes(s[k], s[..k]) {
      PassingLeads(s, k, h);
    } else {
      StayingLeads(s, k, h);
    }
  }

  lemma {:induction false} LeadsFirst(s: seq<VersionedRock>, k: nat)
    requires k < |s| && !SomeTop(s, k) && IsTop(s, k) && TopsRevisioned(s, k + 1)
    ensures Leads(s, k + 1, Head(s[..k + 1]))
  {
    FirstTopLeads(s, k);
    assert s[..k + 1][k] == s[k];
  }

  /** While all candidates of the newest components carry revisions, the head is the one
      with the highest. */
  lemma {:induction false} HeadLeads(s: seq<VersionedRock>, k: nat)
    requires k <= |s| && SomeTop(s, k) && TopsRevisioned(s, k)
    ensures Leads(s, k, Head(s[..k]))
  {
    var n: nat := k - 1;
    if SomeTop(s, n) {
      HeadLeads(s, n);
      NextLeads(s, n, Head(s[..n]));
    } else {
      LeadsFirst(s, n);
    }
  }

  /** The first candidate of the newest components that has no revision. */
  ghost predicate FirstPlain(s: seq<VersionedRock>, i: nat) {
    IsTop(s, i) && !s[i].version.hasRevision && TopsRevisioned(s, i)
  }

  lemma {:induction false} NonePassesPlain(s: seq<VersionedRock>, i: nat, k: nat)
    requires FirstPlain(s, i) && i < k < |s|
    ensures !Passes(s[k], s[..k])
  {
    assert s[..k][i] == s[i];
    TopAgainst(s, s[i], s[k]);
  }

  /** Behind it the head never changes. */
  lemma {:induction false} HeadBehindPlain(s: seq<VersionedRock>, i: nat, k: nat)
    requires FirstPlain(s, i) && i < k <= |s|
    ensures Head(s[..k]) == Head(s[..i + 1])
  {
    if k > i + 1 {
      HeadBehindPlain(s, i, k - 1);
      NonePassesPlain(s, i, k - 1);
      assert s[..k] == s[..k - 1] + [s[k - 1]];
      HeadStep(s[..k - 1], s[k - 1]);
    }
  }

  lemma {:induction false} HeadAtPlain(s: seq<VersionedRock>, i: nat)
    requires FirstPlain(s, i)
    ensures Head(s) == if SomeTop(s, i) then Head(s[..i]) else s[i]
  {
    HeadBehindPlain(s, i, |s|);
    assert s[..|s|] == s;
    if SomeTop(s, i) {
      var k :| 0 <= k < i && IsTop(s, k);
      assert s[..i + 1] == s[..i] + [s[i]] && s[..i][k] == s[k];
      HeadStep(s[..i], s[i]);
      TopAgainst(s, s[k], s[i]);
    } else {
      FirstTopLeads(s, i);
    }
  }

  /** Of the newest components, in order: the first candidate without a revision, s[i],
      has revisioned ones before it, and s[j] behind it has a higher revision than all
      of those. */
  ghost predicate MaskedAt(s: seq<VersionedRock>, i: nat, j: nat) {
    && FirstPlain(s, i) && SomeTop(s, i) && i < j && IsTop(s, j)
    && forall k :: 0 <= k < i && IsTop(s, k) ==> HigherRevision(s[j], s[k])
  }

  ghost predicate Masked(s: seq<VersionedRock>) {
    exists i, j :: MaskedAt(s, i, j)
  }

  lemma {:induction false} MaskedIsBeaten(s: seq<VersionedRock>, i: nat, j: nat)
    requires MaskedAt(s, i, j)
    ensures Newer(s[j], Head(s))
  {
    HeadAtPlain(s, i);
    HeadLeads(s, i);
    var h := Head(s[..i]);
    var k :| 0 <= k < i && s[..i][k] == h;
    assert IsTop(s, k);
    TopAgainst(s, h, s[j]);
  }

  lemma {:induction false} BeatenIsMasked(s: seq<VersionedRock>, i: nat, y: VersionedRock)
    requires FirstPlain(s, i) && y in s && Newer(y, Head(s))
    ensures Masked(s)
  {
    HeadAtPlain(s, i);
    if SomeTop(s, i) {
      HeadLeads(s, i);
      var h := Head(s[..i]);
      TopAgainst(s, h, y);
      var j :| 0 <= j < |s| && s[j] == y;
      assert IsTop(s, j) && j > i;
      assert MaskedAt(s, i, j);
    } else {
      TopAgainst(s, s[i], y);
    }
  }

  lemma {:induction false} SomePlain(s: seq<VersionedRock>, k: nat) returns (i: nat)
    requires k <= |s| && !TopsRevisioned(s, k)
    ensures i < k && FirstPlain(s, i)
  {
    if TopsRevisioned(s, k - 1) {
      i := k - 1;
    } else {
      i := SomePlain(s, k - 1);
    }
  }

  /** On a sequence of candidates the sorting pick is beaten exactly when a revision is
      masked. */
  lemma {:induction false} SortBeatenExactly(s: seq<VersionedRock>)
    requires s != []
    ensures Minimal(Newer, Head(s), s) <==> !Masked(s)
  {
    SortedElements(Newer, s);
    assert s[..|s|] == s && Head(s) in Sorted(Newer, s);
    if TopsRevisioned(s, |s|) {
      var t := TopExists(s);
      HeadLeads(s, |s|);
      forall y | y in s ensures !Newer(y, Head(s)) {
        var j :| 0 <= j < |s| && s[j] == y;
        TopAgainst(s, Head(s), y);
        assert TopComponents(y, s) ==> IsTop(s, j);
      }
    } else {
      var i := SomePlain(s, |s|);
      if Masked(s) {
        var i': nat, j: nat :| MaskedAt(s, i', j);
        MaskedIsBeaten(s, i', j);
      } else {
        forall y | y in s ensures !Newer(y, Head(s)) {
          if Newer(y, Head(s)) { BeatenIsMasked(s, i, y); }
        }
      }
    }
  }

  // ---- when some order of the candidates masks a revision --------------------

  /** a is outranked by a higher revision b of the same newest components, and c has
      those components without a revision: c ties with both. */
  ghost predicate HiddenBy(s: seq<VersionedRock>, a: VersionedRock, b: VersionedRock, c: VersionedRock) {
    && a in s && b in s && c in s
    && TopComponents(a, s) && TopComponents(b, s) && TopComponents(c, s)
    && HigherRevision(b, a) && !c.version.hasRevision
  }

  ghost predicate Hidden(s: seq<VersionedRock>) {
    exists a, b, c :: HiddenBy(s, a, b, c)
  }

  ghost predicate SameCandidates(p: seq<VersionedRock>, s: seq<VersionedRock>) {
    multiset(p) == multiset(s)
  }

  lemma SameElements(p: seq<VersionedRock>, s: seq<VersionedRock>)
    requires SameCandidates(p, s)
    ensures forall x :: x in p <==> x in s
  {
    SameMembers(p, s);
  }

  lemma SameTop(p: seq<VersionedRock>, s: seq<VersionedRock>, a: VersionedRock)
    requires SameCandidates(p, s) && TopComponents(a, p)
    ensures TopComponents(a, s)
  {
    SameElements(p, s);
  }

  lemma {:induction false} MoveToFront(s: seq<VersionedRock>, a: VersionedRock) returns (r: seq<VersionedRock>)
    requires a in s
    ensures SameCandidates([a] + r, s)
  {
    var i :| 0 <= i < |s| && s[i] == a;
    r := s[..i] + s[i + 1..];
    assert s == s[..i] + [a] + s[i + 1..];
  }

  lemma {:induction false} MaskedIsHidden(p: seq<VersionedRock>, s: seq<VersionedRock>)
    requires Masked(p) && SameCandidates(p, s)
    ensures Hidden(s)
  {
    var i: nat, j: nat :| MaskedAt(p, i, j);
    var k: nat :| 0 <= k < i && IsTop(p, k);
    SameElements(p, s);
    SameTop(p, s, p[i]);
    SameTop(p, s, p[j]);
    SameTop(p, s, p[k]);
    assert HiddenBy(s, p[k], p[j], p[i]);
  }

  lemma {:induction false} HiddenIsMasked(s: seq<VersionedRock>) returns (p: seq<VersionedRock>)
    requires Hidden(s)
    ensures SameCandidates(p, s) && Masked(p)
  {
    var a, b, c :| HiddenBy(s, a, b, c);
    var r := MoveToFront(s, a);
    SameElements([a] + r, s);
    assert c != a && c in [a] + r;
    var q := MoveToFront(r, c);
    p := [a, c] + q;
    assert p == [a] + ([c] + q);
    SameElements(p, s);
    assert b in p && b != a && b != c;
    var j: nat :| j < |p| && p[j] == b;
    MaskedInFront(p, j);
  }

  lemma {:induction false} MaskedInFront(p: seq<VersionedRock>, j: nat)
    requires 1 < j < |p| && HiddenBy(p, p[0], p[j], p[1])
    ensures Masked(p)
  {
    assert IsTop(p, 0) && IsTop(p, 1) && IsTop(p, j);
    assert MaskedAt(p, 1, j);
  }

  ghost predicate SortUnbeaten(s: seq<VersionedRock>, p: seq<VersionedRock>) {
    p != [] && Minimal(Newer, Head(p), s)
  }

  lemma {:induction false} SameUnbeaten(s: seq<VersionedRock>, p: seq<VersionedRock>)
    requires s != [] && SameCandidates(p, s)
    ensures SortUnbeaten(s, p) <==> !Masked(p)
  {
    SameMembers(p, s);
    SortBeatenExactly(p);
  }

  /** The sort gives an unbeaten candidate in every order of the candidates exactly
      when no revision hides behind a version without one. */
  lemma {:induction false} SortUnbeatenExactly(s: seq<VersionedRock>)
    requires s != []
    ensures (forall p :: SameCandidates(p, s) ==> SortUnbeaten(s, p)) <==> !Hidden(s)
  {
    if Hidden(s) {
      var p := HiddenIsMasked(s);
      SameUnbeaten(s, p);
    } else {
      forall p | SameCandidates(p, s) ensures SortUnbeaten(s, p) {
        SameUnbeaten(s, p);
        if Masked(p) { MaskedIsHidden(p, s); }
      }
    }
  }
}
