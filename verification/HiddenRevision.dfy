/** An index whose newest rock the resolver's pick misses: three versions of one rock, in
    the order in which remote/remote.go hands them over. */
module HiddenRevision {
  import opened Versions
  import opened VersionText
  import opened Rocks
  import opened Sorting
  import opened Selection
  import opened RemoteManifests
  import Text
  import SortedKeys

  const FIRST := "1.0-1"
  const MIDDLE := "1.0.0"
  const LAST := "1.0.0-2"

  lemma {:induction false} TwoZeros()
    ensures Spell(Dotted([0])) == "0" && Spell(Dotted([0, 0])) == "0.0"
  {
    assert Text.Decimal(0) == "0" && [0][1..] == [] && [0, 0][1..] == [0];
    assert Spell(Dotted([0])) == "0";
  }

  lemma {:induction false} Spellings()
    ensures Spell(Dotted([1, 0])) == "1.0" && Spell(Dotted([1, 0, 0])) == MIDDLE
  {
    TwoZeros();
    assert Text.Decimal(1) == "1" && [1, 0][1..] == [0] && [1, 0, 0][1..] == [0, 0];
  }

  lemma {:induction false} PlainIs(t: string, ns: seq<nat>)
    requires ns != [] && Bounded(ns, MAX_INT + 1) && t == Spell(Dotted(ns))
    ensures Parse(t) == Versions.Ok(Version(t, Reals(ns), 0, false, false, false))
  {
    PlainNumeralsBack(ns);
  }

  lemma {:induction false} RevisionedIs(t: string, ns: seq<nat>, r: nat)
    requires ns != [] && Bounded(ns, MAX_INT + 1) && r <= MAX_INT
    requires t == Spell(Dotted(ns)) + "-" + Text.Decimal(r)
    ensures Parse(t) == Versions.Ok(Version(t, Reals(ns), r, true, false, false))
  {
    NumeralsBack(ns, r);
  }

  lemma {:induction false} FirstIs(t: string, ns: seq<nat>, r: nat)
    requires t == FIRST && ns == [1, 0] && r == 1
    ensures Parse(t) == Versions.Ok(Version(t, Reals(ns), r, true, false, false))
  {
    Spellings();
    assert Text.Decimal(r) == [t[|t| - 1]];
    RevisionedIs(t, ns, r);
  }

  lemma {:induction false} MiddleIs(t: string, ns: seq<nat>)
    requires t == MIDDLE && ns == [1, 0, 0]
    ensures Parse(t) == Versions.Ok(Version(t, Reals(ns), 0, false, false, false))
  {
    Spellings();
    PlainIs(t, ns);
  }

  lemma {:induction false} LastIs(t: string, ns: seq<nat>, r: nat)
    requires t == LAST && ns == [1, 0, 0] && r == 2
    ensures Parse(t) == Versions.Ok(Version(t, Reals(ns), r, true, false, false))
  {
    Spellings();
    assert Text.Decimal(r) == [t[|t| - 1]];
    RevisionedIs(t, ns, r);
  }

  /** The order of the version keys. */
  lemma {:induction false} KeyOrder()
    ensures SortedKeys.Strings({FIRST, MIDDLE, LAST}) == [FIRST, MIDDLE, LAST]
  {
    SortedKeys.SortedUnique(SortedKeys.Strings({FIRST, MIDDLE, LAST}), [FIRST, MIDDLE, LAST]);
  }

  /** The rows of the three versions. */
  ghost predicate Triple(a: VersionedRock, b: VersionedRock, c: VersionedRock) {
    && a.version == Version(FIRST, Reals([1, 0]), 1, true, false, false)
    && b.version == Version(MIDDLE, Reals([1, 0, 0]), 0, false, false, false)
    && c.version == Version(LAST, Reals([1, 0, 0]), 2, true, false, false)
  }

  lemma {:induction false} TripleOrder(a: VersionedRock, b: VersionedRock, c: VersionedRock)
    requires Triple(a, b, c)
    ensures !Newer(b, a) && !Newer(c, b) && Newer(c, a) && !Newer(a, b)
    ensures Masked([a, b, c])
  {
    assert Components(b, a) == 0 && Components(c, a) == 0 && Components(c, b) == 0;
    assert Components(a, a) == 0 && Components(a, b) == 0;
    assert Components(b, b) == 0 && Components(c, c) == 0 && Components(a, c) == 0 && Components(b, c) == 0;
    assert IsTop([a, b, c], 0) && IsTop([a, b, c], 1) && IsTop([a, b, c], 2);
    assert MaskedAt([a, b, c], 1, 2);
  }

  lemma {:induction false} TripleSorted(a: VersionedRock, b: VersionedRock, c: VersionedRock)
    requires Triple(a, b, c)
    ensures Sorted(Newer, [a, b, c]) == [a, b, c] && Scan(Newer, [a, b, c]) == c
  {
    TripleOrder(a, b, c);
    assert [a][..0] == [] && [a, b][..1] == [a] && [a, b, c][..2] == [a, b];
    assert Sorted(Newer, [a]) == [a];
    RestIs(Newer, [a], b, 1);
    assert Sorted(Newer, [a, b]) == [a, b];
    RestIs(Newer, [a, b], c, 2);
  }

  lemma {:induction false} RowOne(name: string, version: string, items: seq<Item>, url: (Item, string, string) -> string)
    returns (row: VersionedRock)
    requires items != [] && Parse(version).Ok?
    ensures RowOf(name, version, items, url) == [row] && row.version == Parse(version).value
  {
    row := RowOf(name, version, items, url)[0];
  }

  lemma {:induction false} RowsOfThree(name: string, ks: seq<string>, merged: Offers, url: (Item, string, string) -> string,
                                       a: VersionedRock, b: VersionedRock, c: VersionedRock)
    requires |ks| == 3 && forall k :: k in ks ==> k in merged && merged[k] != []
    requires RowOf(name, ks[0], merged[ks[0]], url) == [a] && RowOf(name, ks[1], merged[ks[1]], url) == [b]
    requires RowOf(name, ks[2], merged[ks[2]], url) == [c]
    ensures RowsOf(name, ks, merged, url) == [a, b, c]
  {
    assert ks[..2][..1] == ks[..1] && ks[..1][..0] == [];
    assert RowsOf(name, ks[..1], merged, url) == [a];
    assert RowsOf(name, ks[..2], merged, url) == [a, b];
  }

  lemma {:induction false} TripleRows(name: string, merged: Offers, url: (Item, string, string) -> string)
    returns (a: VersionedRock, b: VersionedRock, c: VersionedRock)
    requires NonEmpty(merged) && merged.Keys == {FIRST, MIDDLE, LAST}
    ensures Triple(a, b, c) && MergedRocks(name, merged, url) == [a, b, c]
  {
    KeyOrder();
    var ks := SortedKeys.Strings(merged.Keys);
    FirstIs(ks[0], [1, 0], 1);
    MiddleIs(ks[1], [1, 0, 0]);
    LastIs(ks[2], [1, 0, 0], 2);
    assert ks[0] in ks && ks[1] in ks && ks[2] in ks;
    a := RowOne(name, ks[0], merged[ks[0]], url);
    b := RowOne(name, ks[1], merged[ks[1]], url);
    c := RowOne(name, ks[2], merged[ks[2]], url);
    RowsOfThree(name, ks, merged, url, a, b, c);
  }

  /** Whoever offers these three versions of a rock, the resolver's pick is 1.0-1, which
      1.0.0-2 beats; the scanning pick is 1.0.0-2. */
  lemma {:induction false} MissesNewest(name: string, merged: Offers, url: (Item, string, string) -> string)
    requires NonEmpty(merged) && merged.Keys == {FIRST, MIDDLE, LAST}
    ensures
      var rows := MergedRocks(name, merged, url);
      && Masked(rows) && SortPick(rows).Just? && ScanPick(rows).Just?
      && SortPick(rows).value.version.raw == FIRST && ScanPick(rows).value.version.raw == LAST
      && Newer(ScanPick(rows).value, SortPick(rows).value)
  {
    var a, b, c := TripleRows(name, merged, url);
    TripleOrder(a, b, c);
    TripleSorted(a, b, c);
  }
}
