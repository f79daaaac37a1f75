/** Install and download choose the same artifact of a rock on one server. */
module ArtifactAgreement {
  import opened Text
  import opened Versions
  import opened Constraints
  import opened Rocks
  import opened Sorting
  import opened Selection
  import opened RemoteManifests
  import opened ManifestCaches
  import opened RockSearch
  import SortedKeys

  // ---- the two ways to an artifact -------------------------------------------

  /** What install fetches first: Query, then client/client.go's pickNewest. */
  function InstallChoice(web: Web, server: string, lv: string, host: string, name: string, namespace: string,
                         cs: seq<Constraint>): Maybe<string>
  {
    var rows := QueryAnswer(web, [server], IsLocal(server), lv, host, name, namespace);
    if rows.Nothing? then Nothing
    else
      var pick := ScanPick(Matching(rows.value, cs));
      if pick.Nothing? then Nothing else Just(pick.value.url)
  }

  /** What download fetches: pickLatestVersion's row of what Search answers. */
  function DownloadChoice(answer: Maybe<seq<Found>>): Maybe<string> {
    if answer.Nothing? then Nothing
    else
      var pick := PickLatest(answer.value);
      if pick.Nothing? then Nothing else Just(pick.value.url)
  }

  // ---- one rock of one manifest ----------------------------------------------

  /** A rock on a server: its versions, what is asked of them, and who asks.  meets tells
      which version keys parse and satisfy the constraints, version what they parse to. */
  datatype Rock = Rock(
    server: string,
    name: string,
    versions: map<string, seq<string>>,
    q: Query,
    host: string,
    meets: string -> bool,
    version: string -> Version)

  function ParsedVersion(v: string): Version {
    if Parse(v).Ok? then Parse(v).value else Version("", [], 0, false, false, false)
  }

  ghost predicate Asked(r: Rock) {
    forall v {:trigger Satisfies(r.q, v)} ::
      r.meets(v) == Satisfies(r.q, v) && (Parse(v).Ok? ==> r.version(v) == Parse(v).value)
  }

  function ArchesAt(r: Rock, v: string): seq<string>
    requires v in r.versions
  {
    AcceptedArches(r.versions[v], r.host)
  }

  predicate Available(r: Rock, v: string)
    requires v in r.versions
  {
    ArchesAt(r, v) != []
  }

  /** The version parses, satisfies the constraints and has an accepted offering. */
  predicate Eligible(r: Rock, v: string)
    requires v in r.versions
  {
    r.meets(v) && Available(r, v)
  }

  predicate KeysOf(r: Rock, vers: seq<string>) {
    forall v :: v in vers ==> v in r.versions
  }

  function EligibleOf(r: Rock, vers: seq<string>): (good: seq<string>)
    requires KeysOf(r, vers)
    ensures forall v :: v in good <==> v in vers && Eligible(r, v)
  {
    if vers == [] then [] else
      var n := |vers| - 1;
      assert vers[n] in vers && vers == vers[..n] + [vers[n]];
      EligibleOf(r, vers[..n]) + if Eligible(r, vers[n]) then [vers[n]] else []
  }

  function URLOf(r: Rock, v: string): string
    requires v in r.versions && Available(r, v)
  {
    var arches := ArchesAt(r, v);
    ArtifactURL(r.server, r.name, v, arches[PickIndex(arches)])
  }

  predicate AllEligible(r: Rock, good: seq<string>) {
    forall v :: v in good ==> v in r.versions && Eligible(r, v)
  }

  // ---- install's candidates --------------------------------------------------

  function CandidateFor(r: Rock, v: string): VersionedRock
    requires v in r.versions && Eligible(r, v)
  {
    VersionedRock(r.name, r.version(v), URLOf(r, v), Nothing)
  }

  function CandidatesFor(r: Rock, good: seq<string>): (cands: seq<VersionedRock>)
    requires AllEligible(r, good)
    ensures |cands| == |good|
  {
    if good == [] then [] else
      var n := |good| - 1;
      assert good[n] in good;
      CandidatesFor(r, good[..n]) + [CandidateFor(r, good[n])]
  }

  function AvailableOf(r: Rock, vers: seq<string>): (some: seq<string>)
    requires KeysOf(r, vers)
    ensures forall v :: v in some <==> v in vers && Available(r, v)
  {
    if vers == [] then [] else
      var n := |vers| - 1;
      assert vers[n] in vers && vers == vers[..n] + [vers[n]];
      AvailableOf(r, vers[..n]) + if Available(r, vers[n]) then [vers[n]] else []
  }

  function OffersOf(r: Rock): Offers {
    MergeSome(map[], r.server, r.versions, r.versions.Keys, r.host)
  }

  lemma {:induction false} OffersAre(r: Rock)
    ensures forall v :: v in OffersOf(r) <==> v in r.versions && Available(r, v)
    ensures forall v :: v in OffersOf(r) ==> OffersOf(r)[v] == ItemsOf(r.server, ArchesAt(r, v))
  {
    forall v | v in r.versions
      ensures ItemsWith(map[], r.server, r.versions, r.versions.Keys, r.host, v) == ItemsOf(r.server, ArchesAt(r, v))
    {
      assert ItemsAt(map[], v) == [];
    }
  }

  lemma {:induction false} RowIs(r: Rock, v: string)
    requires v in r.versions && Available(r, v)
    ensures
      var items := ItemsOf(r.server, ArchesAt(r, v));
      RowOf(r.name, v, items, ItemURL)
      == if Parse(v).Bad? then [] else [VersionedRock(r.name, Parse(v).value, URLOf(r, v), Nothing)]
  {
    var items := ItemsOf(r.server, ArchesAt(r, v));
    assert Arches(items) == ArchesAt(r, v);
  }

  lemma {:induction false} MatchingAppend(a: seq<VersionedRock>, b: seq<VersionedRock>, cs: seq<Constraint>)
    ensures Matching(a + b, cs) == Matching(a, cs) + Matching(b, cs)
  {
    if b == [] {
      assert a + b == a;
    } else {
      assert (a + b)[..|a + b| - 1] == a + b[..|b| - 1];
      MatchingAppend(a, b[..|b| - 1], cs);
    }
  }

  lemma {:induction false} MatchingOne(x: VersionedRock, cs: seq<Constraint>)
    ensures Matching([x], cs) == if Match(x.version, cs) then [x] else []
  {
    assert [x][..0] == [];
  }

  /** The rows of the available versions that match are the candidates of the eligible
      ones. */
  ghost predicate CandidatesMatch(r: Rock, some: seq<string>, good: seq<string>, merged: Offers) {
    && AllEligible(r, good)
    && (forall v :: v in some ==> v in merged && merged[v] != [])
    && Matching(RowsOf(r.name, some, merged, ItemURL), r.q.constraints) == CandidatesFor(r, good)
  }

  /** The same with one more available version. */
  lemma {:induction false} CandidateStep(r: Rock, some: seq<string>, good: seq<string>, v: string, merged: Offers)
    requires Asked(r) && v in r.versions && Available(r, v) && CandidatesMatch(r, some, good, merged)
    requires v in merged && merged[v] == ItemsOf(r.server, ArchesAt(r, v)) != []
    ensures CandidatesMatch(r, some + [v], if Eligible(r, v) then good + [v] else good, merged)
  {
    var row := RowOf(r.name, v, merged[v], ItemURL);
    assert Satisfies(r.q, v) <==> r.meets(v);
    RowsGrow(r.name, some, v, merged);
    RowIs(r, v);
    MatchingAppend(RowsOf(r.name, some, merged, ItemURL), row, r.q.constraints);
    if row != [] { MatchingOne(row[0], r.q.constraints); }
    CandidatesGrow(r, good, v);
  }

  lemma {:induction false} VersionsSplit(r: Rock, vers: seq<string>)
    requires KeysOf(r, vers) && vers != []
    ensures
      var init, v := vers[..|vers| - 1], vers[|vers| - 1];
      && KeysOf(r, init) && v in r.versions
      && AvailableOf(r, vers) == (if Available(r, v) then AvailableOf(r, init) + [v] else AvailableOf(r, init))
      && EligibleOf(r, vers) == (if Eligible(r, v) then EligibleOf(r, init) + [v] else EligibleOf(r, init))
  {
    assert vers[|vers| - 1] in vers;
  }

  lemma {:induction false} NoCandidates(r: Rock, merged: Offers)
    ensures CandidatesMatch(r, [], [], merged)
  {
  }

  lemma {:induction false} CandidatesAre(r: Rock, vers: seq<string>, merged: Offers)
    requires Asked(r) && KeysOf(r, vers)
    requires forall v :: v in r.versions && Available(r, v) ==>
      v in merged && merged[v] == ItemsOf(r.server, ArchesAt(r, v))
    ensures CandidatesMatch(r, AvailableOf(r, vers), EligibleOf(r, vers), merged)
  {
    if vers == [] {
      NoCandidates(r, merged);
    } else {
      var init, v := vers[..|vers| - 1], vers[|vers| - 1];
      VersionsSplit(r, vers);
      CandidatesAre(r, init, merged);
      if Available(r, v) {
        CandidateStep(r, AvailableOf(r, init), EligibleOf(r, init), v, merged);
      }
    }
  }

  lemma {:induction false} RowsGrow(name: string, some: seq<string>, v: string, merged: Offers)
    requires v in merged && merged[v] != [] && forall w :: w in some ==> w in merged && merged[w] != []
    ensures RowsOf(name, some + [v], merged, ItemURL)
         == RowsOf(name, some, merged, ItemURL) + RowOf(name, v, merged[v], ItemURL)
  {
    assert (some + [v])[..|some|] == some;
  }

  lemma {:induction false} CandidatesGrow(r: Rock, good: seq<string>, v: string)
    requires AllEligible(r, good) && v in r.versions
    ensures Eligible(r, v) ==>
      AllEligible(r, good + [v])
      && CandidatesFor(r, good + [v]) == CandidatesFor(r, good) + [CandidateFor(r, v)]
  {
    assert (good + [v])[..|good|] == good;
  }

  // ---- sorted keys -----------------------------------------------------------

  lemma {:induction false} AvailableSorted(r: Rock, vers: seq<string>)
    requires KeysOf(r, vers) && SortedKeys.StrictlySorted(vers)
    ensures SortedKeys.StrictlySorted(AvailableOf(r, vers))
  {
    if vers != [] {
      var n := |vers| - 1;
      AvailableSorted(r, vers[..n]);
      var some := AvailableOf(r, vers[..n]);
      forall i | 0 <= i < |some| ensures Less(some[i], vers[n]) {
        assert some[i] in vers[..n];
        var j :| 0 <= j < n && vers[..n][j] == some[i];
        assert vers[j] == some[i];
      }
    }
  }

  lemma {:induction false} EligibleDistinct(r: Rock, vers: seq<string>)
    requires KeysOf(r, vers) && SortedKeys.StrictlySorted(vers)
    ensures SortedKeys.StrictlySorted(EligibleOf(r, vers))
  {
    if vers != [] {
      var n := |vers| - 1;
      EligibleDistinct(r, vers[..n]);
      var good := EligibleOf(r, vers[..n]);
      forall i | 0 <= i < |good| ensures Less(good[i], vers[n]) {
        assert good[i] in vers[..n];
        var j :| 0 <= j < n && vers[..n][j] == good[i];
        assert vers[j] == good[i];
      }
    }
  }

  /** Install's matching candidates for a rock. */
  lemma {:induction false} InstallCandidates(r: Rock)
    requires Asked(r)
    ensures
      var vers, merged := SortedKeys.Strings(r.versions.Keys), OffersOf(r);
      && KeysOf(r, vers) && NonEmpty(merged)
      && Matching(MergedRocks(r.name, merged, ItemURL), r.q.constraints) == CandidatesFor(r, EligibleOf(r, vers))
  {
    var vers, merged := SortedKeys.Strings(r.versions.Keys), OffersOf(r);
    OffersAre(r);
    AvailableSorted(r, vers);
    SortedKeys.SortedUnique(AvailableOf(r, vers), SortedKeys.Strings(merged.Keys));
    CandidatesAre(r, vers, merged);
  }

  // ---- download's rows -------------------------------------------------------

  function OfferRows(r: Rock, v: string, arches: seq<string>): (rows: seq<Found>)
    ensures |rows| == |arches|
    ensures forall i :: 0 <= i < |arches| ==> rows[i] == FoundFor(r.q, r.server, r.name, v, arches[i])
  {
    seq(|arches|, i requires 0 <= i < |arches| => FoundFor(r.q, r.server, r.name, v, arches[i]))
  }

  function RowsFor(r: Rock, good: seq<string>): seq<Found>
    requires AllEligible(r, good)
  {
    if good == [] then [] else
      var n := |good| - 1;
      assert good[n] in good;
      RowsFor(r, good[..n]) + OfferRows(r, good[n], ArchesAt(r, good[n]))
  }

  lemma {:induction false} EntryRowsAre(r: Rock, v: string, arches: seq<string>)
    ensures EntryRows(r.q, r.server, r.name, v, arches, AcceptedSet([], r.host))
         == OfferRows(r, v, AcceptedArches(arches, r.host))
  {
    if arches != [] {
      EntryRowsAre(r, v, arches[..|arches| - 1]);
    }
  }

  function RowsAt(r: Rock, v: string): seq<Found>
    requires v in r.versions
  {
    if Satisfies(r.q, v) then EntryRows(r.q, r.server, r.name, v, r.versions[v], AcceptedSet([], r.host)) else []
  }

  lemma {:induction false} VersionRowsSplit(r: Rock, vers: seq<string>)
    requires KeysOf(r, vers) && vers != []
    ensures
      var init, v, accepted := vers[..|vers| - 1], vers[|vers| - 1], AcceptedSet([], r.host);
      && KeysOf(r, init) && v in r.versions
      && VersionRows(r.q, r.server, r.name, r.versions, vers, accepted)
         == VersionRows(r.q, r.server, r.name, r.versions, init, accepted) + RowsAt(r, v)
  {
    assert vers[|vers| - 1] in vers;
  }

  /** The rows of one more version. */
  lemma {:induction false} RowStep(r: Rock, good: seq<string>, v: string)
    requires Asked(r) && AllEligible(r, good) && v in r.versions
    ensures
      var next := if Eligible(r, v) then good + [v] else good;
      AllEligible(r, next) && RowsFor(r, next) == RowsFor(r, good) + RowsAt(r, v)
  {
    EntryRowsAre(r, v, r.versions[v]);
    RowsForGrow(r, good, v);
  }

  ghost predicate RowsMatch(r: Rock, vers: seq<string>, good: seq<string>) {
    && KeysOf(r, vers) && AllEligible(r, good)
    && VersionRows(r.q, r.server, r.name, r.versions, vers, AcceptedSet([], r.host)) == RowsFor(r, good)
  }

  lemma {:induction false} RowsAre(r: Rock, vers: seq<string>)
    requires Asked(r) && KeysOf(r, vers)
    ensures RowsMatch(r, vers, EligibleOf(r, vers))
  {
    if vers != [] {
      var init, v := vers[..|vers| - 1], vers[|vers| - 1];
      VersionsSplit(r, vers);
      RowsAre(r, init);
      RowsMore(r, vers, EligibleOf(r, init));
    }
  }

  lemma {:induction false} RowsMore(r: Rock, vers: seq<string>, good: seq<string>)
    requires Asked(r) && KeysOf(r, vers) && vers != [] && RowsMatch(r, vers[..|vers| - 1], good)
    ensures
      var v := vers[|vers| - 1];
      v in r.versions && RowsMatch(r, vers, if Eligible(r, v) then good + [v] else good)
  {
    VersionRowsSplit(r, vers);
    RowStep(r, good, vers[|vers| - 1]);
  }

  lemma {:induction false} RowsForGrow(r: Rock, good: seq<string>, v: string)
    requires AllEligible(r, good) && v in r.versions
    ensures Eligible(r, v) ==>
      AllEligible(r, good + [v])
      && RowsFor(r, good + [v]) == RowsFor(r, good) + OfferRows(r, v, ArchesAt(r, v))
  {
    assert (good + [v])[..|good|] == good;
  }

  /** An exact-name search returns the rows of that rock alone. */
  lemma {:induction false} OnlyThisRock(q: Query, server: string, m: RemoteManifest, names: seq<string>, accepted: set<string>)
    requires !q.substring && SortedKeys.StrictlySorted(names) && forall n :: n in names ==> n in m.repository
    ensures NameRows(q, server, m, names, accepted)
         == if q.name in names then RockRows(q, server, q.name, m.repository[q.name], accepted) else []
  {
    if names != [] {
      var n := |names| - 1;
      assert names[n] in names && names == names[..n] + [names[n]];
      OnlyThisRock(q, server, m, names[..n], accepted);
      if names[n] == q.name && q.name in names[..n] {
        var i :| 0 <= i < n && names[..n][i] == q.name;
        assert Less(names[i], names[n]);
        LessIrreflexive(q.name);
      }
    }
  }

  // ---- the same version ------------------------------------------------------

  /** The candidates are ordered like their versions. */
  ghost predicate CandidatesOrdered(r: Rock, good: seq<string>, newer: (string, string) -> bool) {
    AllEligible(r, good)
    && forall a, b :: a in good && b in good ==> (Newer(CandidateFor(r, a), CandidateFor(r, b)) <==> newer(a, b))
  }

  /** Install's scan picks the candidate of the first of the newest versions. */
  lemma {:induction false} InstallPicks(r: Rock, good: seq<string>, newer: (string, string) -> bool)
    requires CandidatesOrdered(r, good, newer) && good != []
    ensures Scan(Newer, CandidatesFor(r, good)) == CandidateFor(r, Scan(newer, good))
  {
    var n := |good| - 1;
    assert good[n] in good;
    if n > 0 {
      InstallPicks(r, good[..n], newer);
      var cands := CandidatesFor(r, good);
      assert cands[..|cands| - 1] == CandidatesFor(r, good[..n]);
    }
  }

  lemma {:induction false} RowsForRock(r: Rock, good: seq<string>)
    requires AllEligible(r, good)
    ensures OneRock(RowsFor(r, good), r.name)
    ensures forall x :: x in RowsFor(r, good) ==> x.version in good
    ensures good != [] ==> RowsFor(r, good) != []
  {
    if good != [] {
      var n := |good| - 1;
      assert good[n] in good && good == good[..n] + [good[n]];
      RowsForRock(r, good[..n]);
    }
  }

  /** before orders rows of one rock by their versions. */
  ghost predicate ByVersion(before: (Found, Found) -> bool, newer: (string, string) -> bool) {
    && (forall a: Found, b: Found {:trigger before(a, b)} :: a.name == b.name ==> (before(a, b) <==> newer(a.version, b.version)))
    && (forall v :: !newer(v, v))
  }

  lemma BeforeByVersion()
    ensures ByVersion(Before, NewerVersion)
  {
    forall a: Found, b: Found | a.name == b.name ensures Before(a, b) <==> NewerVersion(a.version, b.version) {
      BeforeIsNewer(a, b);
    }
    forall v ensures !NewerVersion(v, v) {
      BeforeIsNewer(Found("", v, "", "", ""), Found("", v, "", "", ""));
    }
  }

  /** A scan over more rows of one version. */
  lemma {:induction false} ScanMore(rows: seq<Found>, more: seq<Found>, name: string, v: string,
                                    before: (Found, Found) -> bool, newer: (string, string) -> bool)
    requires ByVersion(before, newer)
    requires rows != [] && OneRock(rows + more, name) && forall x :: x in more ==> x.version == v
    ensures
      var best := Scan(before, rows);
      Scan(before, rows + more).version == if more != [] && newer(v, best.version) then v else best.version
  {
    if more == [] {
      assert rows + more == rows;
    } else {
      var n := |more| - 1;
      var init := rows + more[..n];
      assert rows + more == init + [more[n]] && more == more[..n] + [more[n]];
      ScanMore(rows, more[..n], name, v, before, newer);
      ScanAppend(before, init, more[n]);
      assert OneRock(init, name) && more[n] in rows + more;
    }
  }

  lemma {:induction false} OfferVersion(r: Rock, v: string, arches: seq<string>)
    ensures forall x :: x in OfferRows(r, v, arches) ==> x.version == v
  {
  }

  lemma {:induction false} RowsOfOne(r: Rock, v: string)
    requires v in r.versions && Eligible(r, v)
    ensures AllEligible(r, [v]) && RowsFor(r, [v]) == OfferRows(r, v, ArchesAt(r, v)) != []
  {
    assert [v][..0] == [];
  }

  lemma {:induction false} RowScanOne(r: Rock, v: string, before: (Found, Found) -> bool)
    requires v in r.versions && Eligible(r, v)
    ensures AllEligible(r, [v]) && RowsFor(r, [v]) != [] && Scan(before, RowsFor(r, [v])).version == v
  {
    RowsOfOne(r, v);
    OfferVersion(r, v, ArchesAt(r, v));
  }

  /** The scan over the rows finds the version that the scan over the versions finds. */
  lemma {:induction false} RowScan(r: Rock, good: seq<string>, before: (Found, Found) -> bool,
                                   newer: (string, string) -> bool)
    requires ByVersion(before, newer) && AllEligible(r, good) && good != []
    ensures RowsFor(r, good) != [] && Scan(before, RowsFor(r, good)).version == Scan(newer, good)
  {
    var n := |good| - 1;
    var init, v := good[..n], good[n];
    assert v in good && good == init + [v];
    if n == 0 {
      assert good == [v];
      RowScanOne(r, v, before);
    } else {
      RowScan(r, init, before, newer);
      RowsForGrow(r, init, v);
      RowsForRock(r, good);
      ScanMore(RowsFor(r, init), OfferRows(r, v, ArchesAt(r, v)), r.name, v, before, newer);
    }
  }

  // ---- scanning the rows -----------------------------------------------------

  ghost predicate AllParse(rows: seq<Found>) {
    forall x :: x in rows ==> Parse(x.version).Ok?
  }

  lemma {:induction false} BestNext(rows: seq<Found>, best: Found, x: Found)
    requires BestVersion(rows) == Just(best.version) && x.name == best.name
    requires Parse(best.version).Ok? && Parse(x.version).Ok?
    ensures BestVersion(rows + [x]) == Just(if Before(x, best) then x.version else best.version)
  {
    assert (rows + [x])[..|rows|] == rows;
    BeforeIsNewer(x, best);
  }

  lemma {:induction false} BestOne(x: Found)
    requires Parse(x.version).Ok?
    ensures BestVersion([x]) == Just(x.version)
  {
    assert [x][..0] == [] && BestVersion([]) == Nothing;
  }

  lemma {:induction false} BestOfPrefix(rows: seq<Found>, name: string, k: nat)
    requires 0 < k <= |rows| && OneRock(rows, name) && AllParse(rows)
    ensures BestVersion(rows[..k]) == Just(Scan(Before, rows[..k]).version)
  {
    var init, x := rows[..k - 1], rows[k - 1];
    assert rows[..k] == init + [x] && x in rows;
    if k == 1 {
      BestOne(x);
      assert rows[..k] == [x];
    } else {
      BestOfPrefix(rows, name, k - 1);
      var best := Scan(Before, init);
      assert best in init && best in rows;
      BestNext(init, best, x);
      ScanAppend(Before, init, x);
    }
  }

  /** The first loop of pickLatestVersion scans for the first of the newest rows. */
  lemma {:induction false} BestIsScan(rows: seq<Found>, name: string)
    requires rows != [] && OneRock(rows, name) && AllParse(rows)
    ensures BestVersion(rows) == Just(Scan(Before, rows).version)
  {
    BestOfPrefix(rows, name, |rows|);
    assert rows[..|rows|] == rows;
  }

  // ---- the same offering -----------------------------------------------------

  lemma {:induction false} KeepAll(rows: seq<Found>, v: string)
    requires forall x :: x in rows ==> x.version == v
    ensures Keep(rows, OfVersion(v)) == rows
  {
    if rows != [] {
      var init, last := rows[..|rows| - 1], rows[|rows| - 1];
      assert rows == init + [last] && last in rows;
      forall x | x in init ensures x.version == v {
        assert x in rows;
      }
      KeepAll(init, v);
      KeepLast(rows, OfVersion(v));
    }
  }

  lemma {:induction false} KeepVersion(r: Rock, good: seq<string>, v: string)
    requires AllEligible(r, good) && SortedKeys.StrictlySorted(good)
    ensures Keep(RowsFor(r, good), OfVersion(v)) == if v in good then OfferRows(r, v, ArchesAt(r, v)) else []
  {
    if good != [] {
      var n := |good| - 1;
      assert good[n] in good && good == good[..n] + [good[n]];
      KeepVersion(r, good[..n], v);
      var more := OfferRows(r, good[n], ArchesAt(r, good[n]));
      KeepAppend(RowsFor(r, good[..n]), more, OfVersion(v));
      if good[n] == v {
        KeepAll(more, v);
        if v in good[..n] {
          var i :| 0 <= i < n && good[..n][i] == v;
          assert Less(good[i], good[n]);
          LessIrreflexive(v);
        }
      } else {
        KeepNone(more, OfVersion(v));
      }
    }
  }

  lemma {:induction false} OfferPicked(r: Rock, v: string)
    requires v in r.versions && Available(r, v)
    ensures
      var pick := PickOf(OfferRows(r, v, ArchesAt(r, v)));
      pick.Just? && pick.value.url == URLOf(r, v) && pick.value.version == v
  {
    assert FoundArches(OfferRows(r, v, ArchesAt(r, v))) == ArchesAt(r, v);
  }

  /** The best version of the sorted rows is the first of the newest eligible ones. */
  lemma {:induction false} DownloadVersion(r: Rock, good: seq<string>)
    requires AllEligible(r, good) && good != [] && forall v :: v in good ==> Parse(v).Ok?
    ensures BestVersion(Sorted(Before, RowsFor(r, good))) == Just(Scan(NewerVersion, good))
  {
    var rows := RowsFor(r, good);
    RowsForRock(r, good);
    assert AllParse(rows);
    BeforeByVersion();
    RowScan(r, good, Before, NewerVersion);
    BeforeStrict(rows, r.name);
    ScanSorted(Before, rows);
    SortedElements(Before, rows);
    BestIsScan(Sorted(Before, rows), r.name);
  }

  lemma {:induction false} DownloadOffering(r: Rock, good: seq<string>, v: string)
    requires AllEligible(r, good) && SortedKeys.StrictlySorted(good) && v in good
    ensures
      var pick := PickOf(Keep(Sorted(Before, RowsFor(r, good)), OfVersion(v)));
      pick.Just? && pick.value.version == v && pick.value.url == URLOf(r, v)
  {
    var rows := RowsFor(r, good);
    RowsForRock(r, good);
    SameVersionTies(rows, r.name, v);
    SortedKeeps(Before, rows, OfVersion(v));
    KeepVersion(r, good, v);
    OfferPicked(r, v);
  }

  /** Sorted by insertion and picked, the rows give the first of the newest eligible
      versions and its best offering, however the versions tie. */
  lemma {:induction false} DownloadPicks(r: Rock, good: seq<string>)
    requires AllEligible(r, good) && SortedKeys.StrictlySorted(good) && good != []
    requires forall v :: v in good ==> Parse(v).Ok?
    ensures
      var pick, v := PickLatest(Sorted(Before, RowsFor(r, good))), Scan(NewerVersion, good);
      pick.Just? && pick.value.version == v && pick.value.url == URLOf(r, v)
  {
    DownloadVersion(r, good);
    DownloadOffering(r, good, Scan(NewerVersion, good));
  }

  lemma SameVersionTies(rows: seq<Found>, name: string, v: string)
    requires OneRock(rows, name)
    ensures forall x, y :: x in rows && y in rows && OfVersion(v)(x) && OfVersion(v)(y) ==> !Before(x, y)
  {
  }

  // ---- agreement -------------------------------------------------------------

  /** What Search finds of the rock. */
  function FoundRows(r: Rock): seq<Found> {
    RockRows(r.q, r.server, r.name, r.versions, AcceptedSet([], r.host))
  }

  lemma {:induction false} ParsedOrder(r: Rock, good: seq<string>)
    requires Asked(r) && AllEligible(r, good)
    ensures CandidatesOrdered(r, good, NewerVersion)
  {
    forall a, b | a in good && b in good
      ensures Newer(CandidateFor(r, a), CandidateFor(r, b)) <==> NewerVersion(a, b)
    {
      assert Satisfies(r.q, a) && Satisfies(r.q, b);
    }
  }

  lemma AllGoodParse(r: Rock, good: seq<string>)
    requires Asked(r) && AllEligible(r, good)
    ensures forall v :: v in good ==> Parse(v).Ok?
  {
    forall v | v in good ensures Parse(v).Ok? {
      assert Satisfies(r.q, v);
    }
  }

  /** What install makes of the candidates and download of the rows of one rock. */
  function InstallPick(r: Rock): Maybe<VersionedRock>
    requires NonEmpty(OffersOf(r))
  {
    ScanPick(Matching(MergedRocks(r.name, OffersOf(r), ItemURL), r.q.constraints))
  }

  function DownloadPick(r: Rock): Maybe<Found> {
    PickLatest(Sorted(Before, FoundRows(r)))
  }

  lemma {:induction false} RockAgrees(r: Rock)
    requires Asked(r)
    ensures NonEmpty(OffersOf(r))
    ensures var a, b := InstallPick(r), DownloadPick(r);
      && (a.Just? <==> b.Just?)
      && (a.Just? ==> a.value.url == b.value.url && a.value.version == r.version(b.value.version))
  {
    var vers := SortedKeys.Strings(r.versions.Keys);
    var good := EligibleOf(r, vers);
    InstallCandidates(r);
    RowsAre(r, vers);
    EligibleDistinct(r, vers);
    if good == [] {
      assert CandidatesFor(r, good) == [] && RowsFor(r, good) == [];
      assert Sorted(Before, RowsFor(r, good)) == [];
    } else {
      ParsedOrder(r, good);
      AllGoodParse(r, good);
      InstallPicks(r, good, NewerVersion);
      DownloadPicks(r, good);
    }
  }

  function ExactQuery(name: string, namespace: string, cs: seq<Constraint>): Query {
    Query(name, namespace, false, cs, [], map[])
  }

  function MeetsOf(q: Query): string -> bool {
    (v: string) => Satisfies(q, v)
  }

  /** The rock an exact query asks a manifest for. */
  function RockIn(m: RemoteManifest, server: string, q: Query, host: string): Rock {
    Rock(server, q.name, VersionsOf(m, q.name), q, host, MeetsOf(q), ParsedVersion)
  }

  /** Whichever index queries the server, the rows have the URLs that a search gives. */
  lemma {:induction false} SameURLs(r: Rock)
    ensures NonEmpty(OffersOf(r))
    ensures MergedRocks(r.name, OffersOf(r), URLBy(IsLocal(r.server))) == MergedRocks(r.name, OffersOf(r), ItemURL)
  {
    OffersAre(r);
    if !IsLocal(r.server) {
      SameRows(r.name, SortedKeys.Strings(OffersOf(r).Keys), OffersOf(r), r.server);
    }
  }

  lemma {:induction false} InstallIs(web: Web, server: string, lv: string, host: string, q: Query, m: RemoteManifest)
    requires Fresh(web, Key(server, q.namespace, lv)) == Just(m)
    ensures NonEmpty(OffersOf(RockIn(m, server, q, host)))
    ensures
      var pick := InstallPick(RockIn(m, server, q, host));
      InstallChoice(web, server, lv, host, q.name, q.namespace, q.constraints)
      == if pick.Nothing? then Nothing else Just(pick.value.url)
  {
    OneServer(web, server, IsLocal(server), lv, host, q.name, q.namespace);
    var r := RockIn(m, server, q, host);
    assert OffersOf(r) == Merge(map[], m, server, q.name, host);
    SameURLs(r);
  }

  lemma {:induction false} DownloadIs(web: Web, server: string, lv: string, host: string, q: Query, m: RemoteManifest)
    requires q == ExactQuery(q.name, q.namespace, q.constraints)
    requires Fresh(web, Key(server, q.namespace, lv)) == Just(m)
    ensures
      var pick := DownloadPick(RockIn(m, server, q, host));
      DownloadChoice(SearchAnswer(web, lv, host, [server], q))
      == if pick.Nothing? then Nothing else Just(pick.value.url)
  {
    OneWalk(web, server, lv, q, AcceptedSet([], host));
    ExactRows(q, server, m, AcceptedSet([], host));
    var rows := ManifestRows(q, server, m, AcceptedSet([], host));
    assert rows + [] == rows;
  }

  lemma {:induction false} NeitherLoads(web: Web, server: string, lv: string, host: string, q: Query)
    requires q == ExactQuery(q.name, q.namespace, q.constraints)
    requires Fresh(web, Key(server, q.namespace, lv)).Nothing?
    ensures InstallChoice(web, server, lv, host, q.name, q.namespace, q.constraints).Nothing?
    ensures SearchRows(web, lv, host, [server], q).Nothing?
  {
    OneServer(web, server, IsLocal(server), lv, host, q.name, q.namespace);
    OneWalk(web, server, lv, q, AcceptedSet([], host));
    var none: Offers := map[];
    assert SortedKeys.Strings(none.Keys) == [];
  }

  /** The library's sort has one outcome on these rows: they are few, or their versions all
      carry revisions, or none does. */
  ghost predicate SortsOneWay(rows: seq<Found>) {
    |rows| <= INSERTION_LIMIT || UniformNames(rows)
  }

  lemma {:induction false} OneAnswer(web: Web, lv: string, host: string, servers: seq<string>, q: Query,
                                     answer: Maybe<seq<Found>>)
    requires MayAnswer(web, lv, host, servers, q, answer)
    requires
      var rows := SearchRows(web, lv, host, servers, q);
      rows.Just? ==> SortsOneWay(rows.value)
    ensures answer == SearchAnswer(web, lv, host, servers, q)
  {
    var rows := SearchRows(web, lv, host, servers, q);
    if rows.Just? {
      if UniformNames(rows.value) { BeforeWeak(rows.value); }
      StableIsSorted(Before, rows.value, answer.value);
    }
  }

  /** For one server and an exact name that the VM does not provide, install and download
      choose the same artifact, or both none, whatever Search answers. */
  lemma {:induction false} InstallAndDownloadAgree(web: Web, server: string, lv: string, host: string, q: Query,
                                                   answer: Maybe<seq<Found>>)
    requires q == ExactQuery(q.name, q.namespace, q.constraints)
    requires MayAnswer(web, lv, host, [server], q, answer)
    requires
      var rows := SearchRows(web, lv, host, [server], q);
      rows.Just? ==> SortsOneWay(rows.value)
    ensures InstallChoice(web, server, lv, host, q.name, q.namespace, q.constraints) == DownloadChoice(answer)
  {
    var m := Fresh(web, Key(server, q.namespace, lv));
    OneAnswer(web, lv, host, [server], q, answer);
    if m.Nothing? {
      NeitherLoads(web, server, lv, host, q);
    } else {
      InstallIs(web, server, lv, host, q, m.value);
      DownloadIs(web, server, lv, host, q, m.value);
      RockAgrees(RockIn(m.value, server, q, host));
    }
  }

  lemma {:induction false} OneWalk(web: Web, server: string, lv: string, q: Query, accepted: set<string>)
    ensures
      var m := Fresh(web, Key(server, q.namespace, lv));
      Walk(web, lv, q, accepted, [server], [], false)
      == if m.Nothing? then ([], true) else (ManifestRows(q, server, m.value, accepted), false)
  {
    assert [server][1..] == [];
    var m := Fresh(web, Key(server, q.namespace, lv));
    if m.Just? { assert [] + ManifestRows(q, server, m.value, accepted) == ManifestRows(q, server, m.value, accepted); }
  }

  lemma {:induction false} ExactRows(q: Query, server: string, m: RemoteManifest, accepted: set<string>)
    requires !q.substring
    ensures ManifestRows(q, server, m, accepted) == RockRows(q, server, q.name, VersionsOf(m, q.name), accepted)
  {
    OnlyThisRock(q, server, m, SortedKeys.Strings(m.repository.Keys), accepted);
    if q.name !in m.repository {
      var none: map<string, seq<string>> := map[];
      assert SortedKeys.Strings(none.Keys) == [];
    }
  }
}
