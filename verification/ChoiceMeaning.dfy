/** What install and download fetch, read off the manifests that the servers hold. */
module ChoiceMeaning {
  import opened Text
  import opened Versions
  import opened Constraints
  import opened ConstraintMeaning
  import opened Rocks
  import opened Sorting
  import opened Selection
  import opened RemoteManifests
  import opened ManifestCaches
  import opened RockSearch
  import opened ArtifactAgreement
  import opened ArtifactURLs
  import opened RowMeaning

  predicate Meets(v: string, cs: seq<Constraint>) {
    Parse(v).Ok? && forall i :: 0 <= i < |cs| ==> MatchOne(Parse(v).value, cs[i])
  }

  /** The versions to choose from: offered, and meeting the constraints. */
  ghost predicate Eligible(a: Asking, cs: seq<Constraint>, v: string)
    requires Sited(a)
  {
    SomeOffer(a, v) && Meets(v, cs)
  }

  /** No eligible version is newer. */
  ghost predicate NewestOf(a: Asking, cs: seq<Constraint>, v: string)
    requires Sited(a)
  {
    && Eligible(a, cs, v)
    && forall u :: Eligible(a, cs, u) ==> !Precedes(Parse(v).value, Parse(u).value)
  }

  ghost predicate LeadsTo(a: Asking, url: string, v: string, server: string, arch: string)
    requires Sited(a)
  {
    Offered(a, v, server, arch) && Preferred(a, v, arch) && PointsAt(url, server, a.directories, a.name, v, arch)
  }

  /** The URL leads to the preferred offering of a newest eligible version. */
  ghost predicate BestFile(a: Asking, cs: seq<Constraint>, url: string)
    requires Sited(a)
  {
    exists v, server, arch :: NewestOf(a, cs, v) && LeadsTo(a, url, v, server, arch)
  }

  lemma {:induction false} EligibleRow(a: Asking, cs: seq<Constraint>, rows: seq<VersionedRock>, keys: seq<string>,
                                       v: string) returns (i: nat)
    requires Sited(a) && KeysFor(a, keys) && RowsOfKeys(a, rows, keys) && Eligible(a, cs, v)
    ensures i < |rows| && keys[i] == v && rows[i].version == Parse(v).value && rows[i] in Matching(rows, cs)
  {
    assert v in keys;
    i :| 0 <= i < |keys| && keys[i] == v;
    assert IsRow(a, rows[i], keys[i]);
    assert Match(rows[i].version, cs);
  }

  lemma {:induction false} RowEligible(a: Asking, cs: seq<Constraint>, rows: seq<VersionedRock>, keys: seq<string>,
                                       row: VersionedRock) returns (v: string)
    requires Sited(a) && KeysFor(a, keys) && RowsOfKeys(a, rows, keys) && row in Matching(rows, cs)
    ensures Eligible(a, cs, v) && IsRow(a, row, v)
  {
    var i :| 0 <= i < |rows| && rows[i] == row;
    v := keys[i];
    assert IsRow(a, rows[i], v) && v in keys;
  }

  lemma {:induction false} ScanIsNewest(a: Asking, cs: seq<Constraint>, rows: seq<VersionedRock>, keys: seq<string>,
                                        pick: VersionedRock, v: string)
    requires Sited(a) && KeysFor(a, keys) && RowsOfKeys(a, rows, keys)
    requires Eligible(a, cs, v) && pick.version == Parse(v).value && Minimal(Newer, pick, Matching(rows, cs))
    ensures NewestOf(a, cs, v)
  {
    forall u | Eligible(a, cs, u) ensures !Precedes(pick.version, Parse(u).value) {
      var j := EligibleRow(a, cs, rows, keys, u);
      CompareMeaning(rows[j].version, pick.version);
      assert !Newer(rows[j], pick);
    }
  }

  lemma {:induction false} PickIsBest(a: Asking, cs: seq<Constraint>, rows: seq<VersionedRock>, keys: seq<string>)
    requires Sited(a) && KeysFor(a, keys) && RowsOfKeys(a, rows, keys) && Matching(rows, cs) != []
    ensures BestFile(a, cs, Scan(Newer, Matching(rows, cs)).url)
  {
    ScanUnbeaten(rows, cs);
    var pick := Scan(Newer, Matching(rows, cs));
    var v := RowEligible(a, cs, rows, keys, pick);
    var server, arch :| RowFor(a, pick, v, server, arch);
    ScanIsNewest(a, cs, rows, keys, pick, v);
    assert LeadsTo(a, pick.url, v, server, arch);
  }

  function One(web: Web, server: string, lv: string, host: string, name: string, namespace: string): (a: Asking)
    ensures Sited(a)
  {
    Asking(web, [server], IsLocal(server), lv, host, name, namespace)
  }

  lemma {:induction false} ChoiceIs(web: Web, server: string, lv: string, host: string, name: string,
                                    namespace: string, cs: seq<Constraint>)
    ensures
      var r := Answered(One(web, server, lv, host, name, namespace));
      InstallChoice(web, server, lv, host, name, namespace, cs)
      == if r.Nothing? || Matching(r.value, cs) == [] then Nothing else Just(Scan(Newer, Matching(r.value, cs)).url)
  {
  }

  lemma {:induction false} AnswerMeans(a: Asking, cs: seq<Constraint>)
    requires Sited(a) && a.servers != []
    ensures
      if Answered(a).Nothing? || Matching(Answered(a).value, cs) == [] then forall v :: !Eligible(a, cs, v)
      else BestFile(a, cs, Scan(Newer, Matching(Answered(a).value, cs)).url)
  {
    var keys := QueryMeaning(a);
    if Answered(a).Just? {
      var rows := Answered(a).value;
      if Matching(rows, cs) != [] { PickIsBest(a, cs, rows, keys); }
      forall v | Eligible(a, cs, v) ensures Matching(rows, cs) != [] {
        var i := EligibleRow(a, cs, rows, keys, v);
      }
    }
  }

  /** Install fetches the preferred offering of a newest eligible version, and nothing
      exactly when no version is eligible. */
  lemma {:induction false} InstallMeaning(web: Web, server: string, lv: string, host: string, name: string,
                                          namespace: string, cs: seq<Constraint>)
    ensures
      var a, r := One(web, server, lv, host, name, namespace), InstallChoice(web, server, lv, host, name, namespace, cs);
      if r.Just? then BestFile(a, cs, r.value) else forall v :: !Eligible(a, cs, v)
  {
    ChoiceIs(web, server, lv, host, name, namespace, cs);
    AnswerMeans(One(web, server, lv, host, name, namespace), cs);
  }

  /** So does download, whatever Search answers. */
  lemma {:induction false} DownloadMeaning(web: Web, server: string, lv: string, host: string, q: Query,
                                           answer: Maybe<seq<Found>>)
    requires q == ExactQuery(q.name, q.namespace, q.constraints)
    requires MayAnswer(web, lv, host, [server], q, answer)
    requires
      var rows := SearchRows(web, lv, host, [server], q);
      rows.Just? ==> SortsOneWay(rows.value)
    ensures
      var a, r := One(web, server, lv, host, q.name, q.namespace), DownloadChoice(answer);
      if r.Just? then BestFile(a, q.constraints, r.value) else forall v :: !Eligible(a, q.constraints, v)
  {
    InstallAndDownloadAgree(web, server, lv, host, q, answer);
    InstallMeaning(web, server, lv, host, q.name, q.namespace, q.constraints);
  }
}
