/** remote/search.go and client/native_download.go: searching the servers, and choosing
    the file that a download fetches. */
module RockSearch {
  import opened Text
  import opened Versions
  import opened Constraints
  import opened Rocks
  import opened Sorting
  import opened RemoteManifests
  import opened ManifestCaches
  import SortedKeys

  datatype Query = Query(
    name: string,
    namespace: string,
    substring: bool,
    constraints: seq<Constraint>,
    arch: seq<string>,
    provided: map<string, string>)

  /** One row of a search result. */
  datatype Found = Found(name: string, version: string, arch: string, namespace: string, url: string)

  // ---- rows of one manifest ------------------------------------------------

  /** acceptedArchSet */
  function AcceptedSet(want: seq<string>, host: string): set<string> {
    if want != [] then set i | 0 <= i < |want| :: want[i]
    else {"src", "all", "rockspec", "installed", host}
  }

  predicate MatchName(q: Query, name: string) {
    if q.substring then Contains(name, q.name) else name == q.name
  }

  /** Whether a version key parses and meets the query's constraints. */
  predicate Satisfies(q: Query, version: string) {
    var v := Parse(version);
    v.Ok? && Match(v.value, q.constraints)
  }

  function FoundFor(q: Query, server: string, name: string, version: string, arch: string): Found {
    Found(name, version, arch, q.namespace, ArtifactURL(server, name, version, arch))
  }

  function EntryRows(q: Query, server: string, name: string, version: string, arches: seq<string>,
                     accepted: set<string>): seq<Found>
  {
    if arches == [] then [] else
      var n := |arches| - 1;
      EntryRows(q, server, name, version, arches[..n], accepted)
      + if arches[n] in accepted then [FoundFor(q, server, name, version, arches[n])] else []
  }

  function VersionRows(q: Query, server: string, name: string, versions: map<string, seq<string>>,
                       vers: seq<string>, accepted: set<string>): seq<Found>
    requires forall v :: v in vers ==> v in versions
  {
    if vers == [] then [] else
      var n := |vers| - 1;
      assert vers[n] in vers;
      VersionRows(q, server, name, versions, vers[..n], accepted)
      + if Satisfies(q, vers[n]) then EntryRows(q, server, name, vers[n], versions[vers[n]], accepted) else []
  }

  function RockRows(q: Query, server: string, name: string, versions: map<string, seq<string>>,
                    accepted: set<string>): seq<Found>
  {
    VersionRows(q, server, name, versions, SortedKeys.Strings(versions.Keys), accepted)
  }

  function NameRows(q: Query, server: string, m: RemoteManifest, names: seq<string>, accepted: set<string>): seq<Found>
    requires forall n :: n in names ==> n in m.repository
  {
    if names == [] then [] else
      var n := |names| - 1;
      assert names[n] in names;
      NameRows(q, server, m, names[..n], accepted)
      + if MatchName(q, names[n]) then RockRows(q, server, names[n], m.repository[names[n]], accepted) else []
  }

  /** matchManifest */
  function ManifestRows(q: Query, server: string, m: RemoteManifest, accepted: set<string>): seq<Found> {
    NameRows(q, server, m, SortedKeys.Strings(m.repository.Keys), accepted)
  }

  /** The innermost loop of matchManifest. */
  method MatchEntries(q: Query, server: string, name: string, version: string, arches: seq<string>, accepted: set<string>)
    returns (out: seq<Found>)
    ensures out == EntryRows(q, server, name, version, arches, accepted)
  {
    out := [];
    for i := 0 to |arches|
      invariant out == EntryRows(q, server, name, version, arches[..i], accepted)
    {
      assert arches[..i + 1][..i] == arches[..i];
      if arches[i] in accepted {
        out := out + [FoundFor(q, server, name, version, arches[i])];
      }
    }
    assert arches[..|arches|] == arches;
  }

  method MatchVersions(q: Query, server: string, name: string, versions: map<string, seq<string>>, accepted: set<string>)
    returns (out: seq<Found>)
    ensures out == RockRows(q, server, name, versions, accepted)
  {
    var vers := SortedKeys.Strings(versions.Keys);
    out := [];
    for i := 0 to |vers|
      invariant forall v :: v in vers[..i] ==> v in versions
      invariant out == VersionRows(q, server, name, versions, vers[..i], accepted)
    {
      VersionsStep(q, server, name, versions, vers, i, accepted);
      var v := ParseVersion(vers[i]);
      if v.Bad? {
        continue;
      }
      var ok := Matches(v.value, q.constraints);
      if !ok {
        continue;
      }
      var rows := MatchEntries(q, server, name, vers[i], versions[vers[i]], accepted);
      out := out + rows;
    }
    assert vers[..|vers|] == vers;
  }

  lemma {:induction false} NamesStep(q: Query, server: string, m: RemoteManifest, names: seq<string>, i: nat,
                                     accepted: set<string>)
    requires i < |names| && forall n :: n in names ==> n in m.repository
    ensures forall n :: n in names[..i] || n in names[..i + 1] ==> n in m.repository
    ensures names[i] in m.repository
    ensures NameRows(q, server, m, names[..i + 1], accepted)
         == NameRows(q, server, m, names[..i], accepted)
            + if MatchName(q, names[i]) then RockRows(q, server, names[i], m.repository[names[i]], accepted) else []
  {
    assert names[..i + 1][..i] == names[..i] && names[i] in names;
  }

  lemma {:induction false} VersionsStep(q: Query, server: string, name: string, versions: map<string, seq<string>>,
                                        vers: seq<string>, i: nat, accepted: set<string>)
    requires i < |vers| && forall v :: v in vers ==> v in versions
    ensures forall v :: v in vers[..i] || v in vers[..i + 1] ==> v in versions
    ensures vers[i] in versions
    ensures VersionRows(q, server, name, versions, vers[..i + 1], accepted)
         == VersionRows(q, server, name, versions, vers[..i], accepted)
            + if Satisfies(q, vers[i]) then EntryRows(q, server, name, vers[i], versions[vers[i]], accepted) else []
  {
    assert vers[..i + 1][..i] == vers[..i] && vers[i] in vers;
  }

  method MatchManifest(q: Query, server: string, m: RemoteManifest, accepted: set<string>) returns (out: seq<Found>)
    ensures out == ManifestRows(q, server, m, accepted)
  {
    var names := SortedKeys.Strings(m.repository.Keys);
    out := [];
    for i := 0 to |names|
      invariant forall n :: n in names[..i] ==> n in m.repository
      invariant out == NameRows(q, server, m, names[..i], accepted)
    {
      NamesStep(q, server, m, names, i, accepted);
      if MatchName(q, names[i]) {
        var rows := MatchVersions(q, server, names[i], m.repository[names[i]], accepted);
        out := out + rows;
      }
    }
    assert names[..|names|] == names;
  }

  // ---- the order of a result -----------------------------------------------

  /** The order sortMatches imposes: names up, versions down. */
  predicate Before(a: Found, b: Found) {
    if a.name != b.name then Less(a.name, b.name)
    else if a.version == b.version then false
    else
      var av, bv := Parse(a.version), Parse(b.version);
      av.Ok? && bv.Ok? && Compare(av.value, bv.value) > 0
  }

  predicate NewerVersion(a: string, b: string) {
    Parse(a).Ok? && Parse(b).Ok? && Compare(Parse(a).value, Parse(b).value) > 0
  }

  /** Rows of one rock are ordered like their versions. */
  lemma BeforeIsNewer(a: Found, b: Found)
    requires a.name == b.name
    ensures Before(a, b) <==> NewerVersion(a.version, b.version)
  {
    if Parse(a.version).Ok? {
      StrictOrder(Parse(a.version).value, Parse(a.version).value, Parse(a.version).value);
    }
  }

  predicate SameRevisioned(a: Parsed<Version>, b: Parsed<Version>) {
    a.Ok? && b.Ok? && a.value.hasRevision == b.value.hasRevision
  }

  lemma VersionChain(a: Version, b: Version, c: Version)
    ensures Compare(a, b) > 0 && Compare(b, c) > 0 ==> Compare(a, c) > 0
    ensures a.hasRevision == b.hasRevision == c.hasRevision && Compare(a, c) > 0 ==>
      Compare(a, b) > 0 || Compare(b, c) > 0
  {
    StrictOrder(c, b, a);
    StrictOrder(a, b, c);
    StrictOrder(b, c, a);
    StrictOrder(a, c, b);
    if a.hasRevision == b.hasRevision == c.hasRevision { UniformOrder(a, b, c); }
  }

  lemma {:induction false} NewerChain(a: string, b: string, c: string)
    ensures !NewerVersion(a, a)
    ensures NewerVersion(a, b) && NewerVersion(b, c) ==> NewerVersion(a, c)
    ensures SameRevisioned(Parse(a), Parse(b)) && SameRevisioned(Parse(b), Parse(c)) && NewerVersion(a, c) ==>
      NewerVersion(a, b) || NewerVersion(b, c)
  {
    if Parse(a).Ok? {
      StrictOrder(Parse(a).value, Parse(a).value, Parse(a).value);
      if Parse(b).Ok? && Parse(c).Ok? {
        VersionChain(Parse(a).value, Parse(b).value, Parse(c).value);
      }
    }
  }

  /** The versions of each rock all carry revisions, or none does. */
  ghost predicate UniformNames(rows: seq<Found>) {
    forall x, y :: x in rows && y in rows ==> UniformPair(x, y)
  }

  predicate UniformPair(x: Found, y: Found) {
    x.name == y.name ==> SameRevisioned(Parse(x.version), Parse(y.version))
  }

  lemma {:induction false} NameChain(a: string, b: string, c: string)
    ensures Less(a, b) && Less(b, c) ==> Less(a, c)
    ensures Less(a, c) ==> Less(a, b) || a == b || Less(b, c)
    ensures Less(a, b) || a == b || Less(b, a)
    ensures Less(a, b) ==> !Less(b, a) && a != b
  {
    if Less(a, b) && Less(b, c) { LessTransitive(a, b, c); }
    LessTotal(a, b);
    if Less(b, a) && Less(a, c) { LessTransitive(b, a, c); }
    LessIrreflexive(a);
    if Less(a, b) && Less(b, a) { LessAsymmetric(a, b); }
  }

  lemma {:induction false} BeforeChain(x: Found, y: Found, z: Found)
    requires UniformPair(x, y) && UniformPair(y, z)
    ensures Before(x, y) && Before(y, z) ==> Before(x, z)
    ensures Before(x, z) ==> Before(x, y) || Before(y, z)
  {
    NameChain(x.name, y.name, z.name);
    NameChain(y.name, x.name, z.name);
    NameChain(x.name, z.name, y.name);
    if x.name == y.name == z.name {
      NewerChain(x.version, y.version, z.version);
      BeforeIsNewer(x, y);
      BeforeIsNewer(y, z);
      BeforeIsNewer(x, z);
    }
  }

  /** Rows of rocks with uniform versions are weakly ordered. */
  lemma {:induction false} BeforeWeak(rows: seq<Found>)
    requires UniformNames(rows)
    ensures WeakOn(Before, rows)
  {
    forall x, y, z | x in rows && y in rows && z in rows
      ensures Before(x, y) && Before(y, z) ==> Before(x, z)
      ensures Before(x, z) ==> Before(x, y) || Before(y, z)
    {
      BeforeChain(x, y, z);
    }
  }

  /** Rows of one rock. */
  ghost predicate OneRock(rows: seq<Found>, name: string) {
    forall x :: x in rows ==> x.name == name
  }

  /** Rows of one rock are strictly ordered, whatever their versions. */
  lemma {:induction false} BeforeStrict(rows: seq<Found>, name: string)
    requires OneRock(rows, name)
    ensures StrictOn(Before, rows)
  {
    forall x, y, z | x in rows && y in rows && z in rows && Before(x, y) && Before(y, z) ensures Before(x, z) {
      NewerChain(x.version, y.version, z.version);
      BeforeIsNewer(x, y);
      BeforeIsNewer(y, z);
      BeforeIsNewer(x, z);
    }
  }

  method SortMatches(found: seq<Found>) returns (r: seq<Found>)
    ensures r == Sorted(Before, found) && SortsTo(Before, found, r)
    ensures UniformNames(found) ==> Ordered(Before, r)
  {
    SortedGoes(Before, found);
    if UniformNames(found) { BeforeWeak(found); }
    if |found| == 0 {
      return [];
    }
    var a := new Found[|found|](i requires 0 <= i < |found| => found[i]);
    assert a[..] == found;
    SliceStable(a, Before);
    return a[..];
  }

  // ---- the walk over the servers -------------------------------------------

  /** exactVersion: the first == constraint's text. */
  function ExactVersion(cs: seq<Constraint>): string {
    if cs == [] then "" else if cs[0].op == "==" then cs[0].version.raw else ExactVersion(cs[1..])
  }

  predicate HasExactMatch(found: seq<Found>, name: string, version: string) {
    name != "" && exists i :: 0 <= i < |found| && found[i].name == name && found[i].version == version
  }

  /** The rows found on servers, and whether one of them failed. */
  function Walk(web: Web, lv: string, q: Query, accepted: set<string>, servers: seq<string>, found: seq<Found>, failed: bool):
    (seq<Found>, bool)
  {
    if servers == [] then (found, failed)
    else
      var m := Fresh(web, Key(servers[0], q.namespace, lv));
      if m.Nothing? then Walk(web, lv, q, accepted, servers[1..], found, true)
      else
        var more := found + ManifestRows(q, servers[0], m.value, accepted);
        var exact := ExactVersion(q.constraints);
        if exact != "" && HasExactMatch(more, q.name, exact) then (more, failed)
        else Walk(web, lv, q, accepted, servers[1..], more, failed)
  }

  function ProvidedRow(q: Query, name: string, version: string): seq<Found> {
    if MatchName(q, name) && Satisfies(q, version) then [Found(name, version, "installed", "", "")] else []
  }

  function ProvidedRows(q: Query, names: seq<string>): seq<Found>
    requires forall n :: n in names ==> n in q.provided
  {
    if names == [] then [] else
      var n := |names| - 1;
      assert names[n] in names;
      ProvidedRows(q, names[..n]) + ProvidedRow(q, names[n], q.provided[names[n]])
  }

  /** matchProvided */
  function Provided(q: Query, accepted: set<string>): seq<Found> {
    if q.provided == map[] || "installed" !in accepted || q.namespace != "" then []
    else ProvidedRows(q, SortedKeys.Strings(q.provided.Keys))
  }

  /** The rows of Search before they are sorted, with manifests loaded afresh; Nothing is
      a failure. */
  function SearchRows(web: Web, lv: string, host: string, servers: seq<string>, q: Query): Maybe<seq<Found>> {
    var accepted := AcceptedSet(q.arch, host);
    var (found, failed) := Walk(web, lv, q, accepted, servers, [], false);
    var all := found + Provided(q, accepted);
    if all == [] && failed then Nothing else Just(all)
  }

  /** What Search may answer, whichever way the library sorts. */
  ghost predicate MayAnswer(web: Web, lv: string, host: string, servers: seq<string>, q: Query, r: Maybe<seq<Found>>) {
    var rows := SearchRows(web, lv, host, servers, q);
    if rows.Nothing? then r.Nothing? else r.Just? && SortsTo(Before, rows.value, r.value)
  }

  /** Search, sorting by insertion. */
  function SearchAnswer(web: Web, lv: string, host: string, servers: seq<string>, q: Query): Maybe<seq<Found>> {
    var rows := SearchRows(web, lv, host, servers, q);
    if rows.Nothing? then Nothing else Just(Sorted(Before, rows.value))
  }

  function OfRow(name: string, version: string): Found -> bool {
    (f: Found) => f.name == name && f.version == version
  }

  /** The answer lists names up and the versions of a name down, has the rows that were
      found, and keeps the order found among the rows of one version. */
  lemma {:induction false} AnswerOrder(web: Web, lv: string, host: string, servers: seq<string>, q: Query,
                                       r: seq<Found>)
    requires MayAnswer(web, lv, host, servers, q, Just(r))
    requires UniformNames(SearchRows(web, lv, host, servers, q).value)
    ensures
      var rows := SearchRows(web, lv, host, servers, q).value;
      && multiset(r) == multiset(rows)
      && forall name, version :: Keep(r, OfRow(name, version)) == Keep(rows, OfRow(name, version))
    ensures forall i, j :: 0 <= i < j < |r| ==> r[i].name == r[j].name || Less(r[i].name, r[j].name)
    ensures forall i, j :: 0 <= i < j < |r| && r[i].name == r[j].name ==> !NewerVersion(r[j].version, r[i].version)
  {
    var rows := SearchRows(web, lv, host, servers, q).value;
    BeforeWeak(rows);
    StableIsSorted(Before, rows, r);
    forall name, version ensures Keep(r, OfRow(name, version)) == Keep(rows, OfRow(name, version)) {
      SortedKeeps(Before, rows, OfRow(name, version));
    }
    forall i, j | 0 <= i < j < |r| ensures r[i].name == r[j].name || Less(r[i].name, r[j].name) {
      assert !Before(r[j], r[i]);
      NameChain(r[i].name, r[j].name, r[i].name);
    }
    forall i, j | 0 <= i < j < |r| && r[i].name == r[j].name ensures !NewerVersion(r[j].version, r[i].version) {
      assert !Before(r[j], r[i]);
      BeforeIsNewer(r[j], r[i]);
    }
  }

  /** The row of a rock that the VM supplies and the query asks for. */
  predicate SuppliedRow(q: Query, f: Found) {
    && f.name in q.provided && MatchName(q, f.name) && Satisfies(q, q.provided[f.name])
    && f == Found(f.name, q.provided[f.name], "installed", "", "")
  }

  ghost predicate NamesUp(rows: seq<Found>) {
    forall i, j :: 0 <= i < j < |rows| ==> Less(rows[i].name, rows[j].name)
  }

  lemma {:induction false} ProvidedLast(q: Query, names: seq<string>)
    requires names != [] && SortedKeys.StrictlySorted(names) && forall n :: n in names ==> n in q.provided
    ensures
      var n := |names| - 1;
      && SortedKeys.StrictlySorted(names[..n]) && (forall m :: m in names[..n] ==> m in q.provided)
      && (forall m :: m in names[..n] ==> Less(m, names[n])) && (forall m :: m in names <==> m in names[..n] || m == names[n])
      && names[n] in q.provided
      && ProvidedRows(q, names) == ProvidedRows(q, names[..n]) + ProvidedRow(q, names[n], q.provided[names[n]])
  {
    var n := |names| - 1;
    assert names == names[..n] + [names[n]] && names[n] in names;
  }

  lemma {:induction false} ProvidedFrom(q: Query, names: seq<string>)
    requires SortedKeys.StrictlySorted(names) && forall n :: n in names ==> n in q.provided
    ensures forall f :: f in ProvidedRows(q, names) <==> f.name in names && SuppliedRow(q, f)
  {
    if names != [] {
      ProvidedLast(q, names);
      ProvidedFrom(q, names[..|names| - 1]);
    }
  }

  lemma {:induction false} ProvidedUp(q: Query, names: seq<string>)
    requires SortedKeys.StrictlySorted(names) && forall n :: n in names ==> n in q.provided
    ensures NamesUp(ProvidedRows(q, names))
  {
    if names != [] {
      var n := |names| - 1;
      ProvidedLast(q, names);
      ProvidedUp(q, names[..n]);
      ProvidedFrom(q, names[..n]);
      var before := ProvidedRows(q, names[..n]);
      forall i | 0 <= i < |before| ensures Less(before[i].name, names[n]) {
        assert before[i] in before;
      }
    }
  }

  /** A search gives one row for each supplied rock that matches, by name, and none at all
      in a namespace or when installed rocks are not asked for. */
  lemma {:induction false} ProvidedMeaning(q: Query, accepted: set<string>)
    ensures NamesUp(Provided(q, accepted))
    ensures forall f :: f in Provided(q, accepted) <==>
      q.namespace == "" && "installed" in accepted && SuppliedRow(q, f)
  {
    ProvidedUp(q, SortedKeys.Strings(q.provided.Keys));
    ProvidedFrom(q, SortedKeys.Strings(q.provided.Keys));
  }

  method MatchOneProvided(q: Query, name: string, version: string) returns (row: seq<Found>)
    ensures row == ProvidedRow(q, name, version)
  {
    if !MatchName(q, name) {
      return [];
    }
    var v := ParseVersion(version);
    if v.Bad? {
      return [];
    }
    var ok := Matches(v.value, q.constraints);
    return if ok then [Found(name, version, "installed", "", "")] else [];
  }

  /** The loop of matchProvided. */
  method MatchProvidedNames(q: Query, names: seq<string>) returns (out: seq<Found>)
    requires forall n :: n in names ==> n in q.provided
    ensures out == ProvidedRows(q, names)
  {
    out := [];
    for i := 0 to |names|
      invariant forall n :: n in names[..i] ==> n in q.provided
      invariant out == ProvidedRows(q, names[..i])
    {
      assert names[..i + 1][..i] == names[..i] && names[i] in names;
      var row := MatchOneProvided(q, names[i], q.provided[names[i]]);
      out := out + row;
    }
    assert names[..|names|] == names;
  }

  method MatchProvided(q: Query, accepted: set<string>) returns (out: seq<Found>)
    ensures out == Provided(q, accepted)
  {
    if |q.provided| == 0 || "installed" !in accepted || q.namespace != "" {
      return [];
    }
    out := MatchProvidedNames(q, SortedKeys.Strings(q.provided.Keys));
  }

  /** loadServerManifest: an index of the server's own form, with an empty memo and the
      caller's shared cache. */
  method LoadServerManifest(web: Web, server: string, namespace: string, lv: string, host: string, cache: ManifestCache?)
    returns (m: Maybe<RemoteManifest>)
    requires SharedFaithful(FreshIn(web), SharedOf(cache)) && NulFree(server)
    modifies Cells(cache)
    ensures SharedFaithful(FreshIn(web), SharedOf(cache))
    ensures m == Fresh(web, Key(server, namespace, LuaVersion(lv)))
  {
    if LocalServerPath(server).Just? {
      var idx := new FileRemoteIndex(web, server, lv, host, cache);
      FileCachedIsFresh(web, FreshIn(web), lv, server, namespace, idx.memo, SharedOf(cache));
      m := idx.Load(namespace);
    } else {
      var idx := new HTTPRemoteIndex(web, [server], lv, host, cache);
      CachedIsFresh(web, FreshIn(web), lv, server, namespace, idx.memo, SharedOf(cache));
      m := idx.Load(server, namespace);
    }
  }

  method WalkServers(web: Web, lv: string, host: string, cache: ManifestCache?, servers: seq<string>, q: Query,
                     accepted: set<string>)
    returns (found: seq<Found>, failed: bool)
    requires SharedFaithful(FreshIn(web), SharedOf(cache)) && forall i :: 0 <= i < |servers| ==> NulFree(servers[i])
    modifies Cells(cache)
    ensures SharedFaithful(FreshIn(web), SharedOf(cache))
    ensures (found, failed) == Walk(web, LuaVersion(lv), q, accepted, servers, [], false)
  {
    found, failed := [], false;
    var exact := ExactVersion(q.constraints);
    ghost var want := Walk(web, LuaVersion(lv), q, accepted, servers, [], false);
    for i := 0 to |servers|
      invariant SharedFaithful(FreshIn(web), SharedOf(cache))
      invariant want == Walk(web, LuaVersion(lv), q, accepted, servers[i..], found, failed)
    {
      assert servers[i..][0] == servers[i] && servers[i..][1..] == servers[i + 1..];
      var m := LoadServerManifest(web, servers[i], q.namespace, lv, host, cache);
      if m.Nothing? {
        failed := true;
        continue;
      }
      var rows := MatchManifest(q, servers[i], m.value, accepted);
      found := found + rows;
      if exact != "" && HasExactMatch(found, q.name, exact) {
        return;
      }
    }
  }

  method Search(web: Web, lv: string, host: string, cache: ManifestCache?, servers: seq<string>, q: Query)
    returns (r: Maybe<seq<Found>>)
    requires SharedFaithful(FreshIn(web), SharedOf(cache)) && forall i :: 0 <= i < |servers| ==> NulFree(servers[i])
    modifies Cells(cache)
    ensures SharedFaithful(FreshIn(web), SharedOf(cache))
    ensures r == SearchAnswer(web, LuaVersion(lv), host, servers, q)
  {
    var accepted := AcceptedSet(q.arch, host);
    var found, failed := WalkServers(web, lv, host, cache, servers, q, accepted);
    var provided := MatchProvided(q, accepted);
    found := found + provided;
    if |found| == 0 && failed {
      return Nothing;
    }
    var sorted := SortMatches(found);
    return Just(sorted);
  }

  // ---- the file to download ------------------------------------------------

  predicate Improves(version: string, best: Maybe<string>) {
    var v := Parse(version);
    v.Ok? && (best.Nothing? || (Parse(best.value).Ok? && Compare(v.value, Parse(best.value).value) > 0))
  }

  /** The highest version of the rows, the first of several that tie. */
  function BestVersion(rows: seq<Found>): Maybe<string> {
    if rows == [] then Nothing else
      var n := |rows| - 1;
      var best := BestVersion(rows[..n]);
      if Improves(rows[n].version, best) then Just(rows[n].version) else best
  }

  function OfVersion(version: string): Found -> bool {
    (f: Found) => f.version == version
  }

  function FoundArches(rows: seq<Found>): (r: seq<string>)
    ensures |r| == |rows| && forall i :: 0 <= i < |rows| ==> r[i] == rows[i].arch
  {
    seq(|rows|, i requires 0 <= i < |rows| => rows[i].arch)
  }

  /** The offering pickLatestVersion takes of some rows of one version. */
  function PickOf(rows: seq<Found>): Maybe<Found> {
    if rows == [] then Nothing else Just(rows[PickIndex(FoundArches(rows))])
  }

  /** pickLatestVersion */
  function PickLatest(rows: seq<Found>): Maybe<Found> {
    var best := BestVersion(rows);
    if best.Nothing? then Nothing else PickOf(Keep(rows, OfVersion(best.value)))
  }

  method FindBest(rows: seq<Found>) returns (best: string)
    ensures best == if BestVersion(rows).Just? then BestVersion(rows).value else ""
    ensures best == "" <==> BestVersion(rows).Nothing?
  {
    best := "";
    var bestParsed := Version("", [], 0, false, false, false);
    for i := 0 to |rows|
      invariant best == if BestVersion(rows[..i]).Just? then BestVersion(rows[..i]).value else ""
      invariant best == "" <==> BestVersion(rows[..i]).Nothing?
      invariant best != "" ==> Parse(best) == Versions.Ok(bestParsed)
    {
      assert rows[..i + 1][..i] == rows[..i];
      var v := ParseVersion(rows[i].version);
      if v.Bad? {
        continue;
      }
      if best == "" || Compare(v.value, bestParsed) > 0 {
        best, bestParsed := rows[i].version, v.value;
      }
    }
    assert rows[..|rows|] == rows;
  }

  lemma {:induction false} PickStep(same: seq<Found>, m: Found)
    requires same != []
    ensures PickOf(same + [m]) == if Displaces(m.arch, PickOf(same).value.arch) then Just(m) else PickOf(same)
  {
    var all := FoundArches(same + [m]);
    assert all[..|same|] == FoundArches(same);
  }

  lemma {:induction false} KeepStep(rows: seq<Found>, i: nat, p: Found -> bool)
    requires i < |rows|
    ensures Keep(rows[..i + 1], p) == if p(rows[i]) then Keep(rows[..i], p) + [rows[i]] else Keep(rows[..i], p)
  {
    assert rows[..i + 1][..i] == rows[..i];
  }

  /** The second loop of pickLatestVersion: the offering of one version. */
  method PickOffering(rows: seq<Found>, best: string) returns (r: Maybe<Found>)
    ensures r == PickOf(Keep(rows, OfVersion(best)))
  {
    r := Nothing;
    for i := 0 to |rows|
      invariant r == PickOf(Keep(rows[..i], OfVersion(best)))
    {
      KeepStep(rows, i, OfVersion(best));
      if rows[i].version != best {
        continue;
      }
      if r.Nothing? {
        r := Just(rows[i]);
        continue;
      }
      PickStep(Keep(rows[..i], OfVersion(best)), rows[i]);
      if Displaces(rows[i].arch, r.value.arch) {
        r := Just(rows[i]);
      }
    }
    assert rows[..|rows|] == rows;
  }

  method PickLatestVersion(rows: seq<Found>) returns (r: Maybe<Found>)
    ensures r == PickLatest(rows)
  {
    var best := FindBest(rows);
    if best == "" {
      return Nothing;
    }
    r := PickOffering(rows, best);
  }
}
