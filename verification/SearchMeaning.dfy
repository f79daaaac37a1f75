/** What the rows of a search and the artifact that install and download choose are, read
    off the manifests that the servers hold. */
module SearchMeaning {
  import opened Text
  import opened Versions
  import opened Constraints
  import opened ConstraintMeaning
  import opened Rocks
  import opened Selection
  import opened RemoteManifests
  import opened ManifestCaches
  import opened RockSearch
  import opened ArtifactURLs
  import opened RowMeaning
  import SortedKeys

  // ---- one manifest ----------------------------------------------------------

  ghost predicate NameAsked(q: Query, name: string) {
    if q.substring then exists front, back :: name == front + q.name + back else name == q.name
  }

  predicate ArchAsked(q: Query, arch: string, host: string) {
    if q.arch != [] then arch in q.arch else Usable(arch, host)
  }

  predicate VersionAsked(q: Query, version: string) {
    Parse(version).Ok? && forall i :: 0 <= i < |q.constraints| ==> MatchOne(Parse(version).value, q.constraints[i])
  }

  /** The manifest offers what the query asks for. */
  ghost predicate Asked(q: Query, m: RemoteManifest, host: string, name: string, version: string, arch: string) {
    && Stocked(m, name, version, arch)
    && NameAsked(q, name) && VersionAsked(q, version) && ArchAsked(q, arch, host)
  }

  ghost predicate RowTells(q: Query, server: string, m: RemoteManifest, host: string, f: Found) {
    && Asked(q, m, host, f.name, f.version, f.arch) && f.namespace == q.namespace
    && PointsAt(f.url, server, LocalServerPath(server).Just?, f.name, f.version, f.arch)
  }

  predicate Names(f: Found, name: string, version: string, arch: string) {
    f.name == name && f.version == version && f.arch == arch
  }

  ghost predicate Listed(rows: seq<Found>, name: string, version: string, arch: string) {
    exists f :: f in rows && Names(f, name, version, arch)
  }

  /** The rows are the offerings asked for. */
  ghost predicate RowsTell(q: Query, server: string, m: RemoteManifest, host: string, rows: seq<Found>) {
    && (forall f :: f in rows ==> RowTells(q, server, m, host, f))
    && (forall name, version, arch :: Asked(q, m, host, name, version, arch) ==> Listed(rows, name, version, arch))
  }

  lemma NameIsAsked(q: Query, name: string)
    ensures MatchName(q, name) <==> NameAsked(q, name)
  {
    if q.substring {
      if Contains(name, q.name) {
        var i: nat :| i <= |name| && HasAt(name, q.name, i);
        assert name == name[..i] + q.name + name[i + |q.name|..];
      }
      if NameAsked(q, name) {
        var front, back :| name == front + q.name + back;
        assert name[|front|..|front| + |q.name|] == q.name;
        assert HasAt(name, q.name, |front|);
      }
    }
  }

  lemma ArchIsAsked(q: Query, arch: string, host: string)
    ensures arch in AcceptedSet(q.arch, host) <==> ArchAsked(q, arch, host)
  {
  }

  lemma {:induction false} EntriesAre(q: Query, server: string, name: string, version: string, arches: seq<string>,
                                      accepted: set<string>)
    ensures forall f :: f in EntryRows(q, server, name, version, arches, accepted) <==>
      f.arch in arches && f.arch in accepted && f == FoundFor(q, server, name, version, f.arch)
  {
    if arches != [] {
      var n := |arches| - 1;
      assert arches == arches[..n] + [arches[n]];
      EntriesAre(q, server, name, version, arches[..n], accepted);
    }
  }

  lemma {:induction false} VersionsAre(q: Query, server: string, name: string, versions: map<string, seq<string>>,
                                       vers: seq<string>, accepted: set<string>)
    requires forall v :: v in vers ==> v in versions
    ensures forall f :: f in VersionRows(q, server, name, versions, vers, accepted) <==>
      && f.version in vers && Satisfies(q, f.version) && f.arch in versions[f.version] && f.arch in accepted
      && f == FoundFor(q, server, name, f.version, f.arch)
  {
    if vers != [] {
      var n := |vers| - 1;
      assert vers == vers[..n] + [vers[n]];
      VersionsAre(q, server, name, versions, vers[..n], accepted);
      EntriesAre(q, server, name, vers[n], versions[vers[n]], accepted);
    }
  }

  lemma {:induction false} NamesAre(q: Query, server: string, m: RemoteManifest, names: seq<string>, accepted: set<string>)
    requires forall n :: n in names ==> n in m.repository
    ensures forall f :: f in NameRows(q, server, m, names, accepted) <==>
      && f.name in names && MatchName(q, f.name) && Satisfies(q, f.version) && Stocked(m, f.name, f.version, f.arch)
      && f.arch in accepted && f == FoundFor(q, server, f.name, f.version, f.arch)
  {
    if names != [] {
      var n := |names| - 1;
      assert names == names[..n] + [names[n]];
      NamesAre(q, server, m, names[..n], accepted);
      var versions := m.repository[names[n]];
      VersionsAre(q, server, names[n], versions, SortedKeys.Strings(versions.Keys), accepted);
    }
  }

  /** The rows of one manifest are exactly the offerings asked for, and each leads to its
      file. */
  lemma {:induction false} ManifestMeaning(q: Query, server: string, m: RemoteManifest, host: string)
    ensures RowsTell(q, server, m, host, ManifestRows(q, server, m, AcceptedSet(q.arch, host)))
  {
    var rows := ManifestRows(q, server, m, AcceptedSet(q.arch, host));
    NamesAre(q, server, m, SortedKeys.Strings(m.repository.Keys), AcceptedSet(q.arch, host));
    forall f | f in rows ensures RowTells(q, server, m, host, f) {
      NameIsAsked(q, f.name);
      ArchIsAsked(q, f.arch, host);
      ArtifactPoints(server, f.name, f.version, f.arch);
    }
    forall name, version, arch | Asked(q, m, host, name, version, arch) ensures Listed(rows, name, version, arch) {
      NameIsAsked(q, name);
      ArchIsAsked(q, arch, host);
      var f := FoundFor(q, server, name, version, arch);
      assert f in rows && Names(f, name, version, arch);
    }
  }

  // ---- the servers that are asked --------------------------------------------

  /** The text of the first == constraint. */
  function ExactText(cs: seq<Constraint>): string {
    if cs == [] then "" else if cs[0].op == "==" then cs[0].version.raw else ExactText(cs[1..])
  }

  ghost predicate HasExact(q: Query, rows: seq<Found>) {
    && q.name != "" && ExactText(q.constraints) != ""
    && exists f :: f in rows && f.name == q.name && f.version == ExactText(q.constraints)
  }

  function ManifestAt(web: Web, lv: string, q: Query, server: string): Maybe<RemoteManifest> {
    FreshBy(web, Key(server, q.namespace, lv), IsLocal(server))
  }

  /** The rows that one server adds. */
  function RowsAt(web: Web, lv: string, q: Query, host: string, server: string): seq<Found> {
    var m := ManifestAt(web, lv, q, server);
    if m.Nothing? then [] else ManifestRows(q, server, m.value, AcceptedSet(q.arch, host))
  }

  /** A server is asked unless one before it has the very version asked for. */
  ghost predicate Visited(web: Web, lv: string, q: Query, host: string, servers: seq<string>, i: nat) {
    i < |servers| && forall j :: 0 <= j < i ==> !HasExact(q, RowsAt(web, lv, q, host, servers[j]))
  }

  ghost predicate FromServer(web: Web, lv: string, q: Query, host: string, servers: seq<string>, f: Found, i: nat) {
    Visited(web, lv, q, host, servers, i) && f in RowsAt(web, lv, q, host, servers[i])
  }

  ghost predicate FromServers(web: Web, lv: string, q: Query, host: string, servers: seq<string>, f: Found) {
    exists i: nat :: FromServer(web, lv, q, host, servers, f, i)
  }

  ghost predicate LoadFailsAt(web: Web, lv: string, q: Query, host: string, servers: seq<string>, i: nat) {
    Visited(web, lv, q, host, servers, i) && ManifestAt(web, lv, q, servers[i]).Nothing?
  }

  ghost predicate LoadFails(web: Web, lv: string, q: Query, host: string, servers: seq<string>) {
    exists i: nat :: LoadFailsAt(web, lv, q, host, servers, i)
  }

  lemma {:induction false} ExactIs(q: Query, found: seq<Found>, rows: seq<Found>)
    requires !HasExact(q, found)
    ensures
      var exact := ExactVersion(q.constraints);
      exact != "" && HasExactMatch(found + rows, q.name, exact) <==> HasExact(q, rows)
  {
    ExactSame(q.constraints);
    var all := found + rows;
    var exact := ExactVersion(q.constraints);
    if exact != "" && HasExactMatch(all, q.name, exact) {
      var i :| 0 <= i < |all| && all[i].name == q.name && all[i].version == exact;
      assert all[i] in rows;
    }
    if HasExact(q, rows) {
      var f :| f in rows && f.name == q.name && f.version == exact;
      var i :| 0 <= i < |rows| && rows[i] == f;
      assert all[|found| + i] == f;
    }
  }

  lemma {:induction false} ExactSame(cs: seq<Constraint>)
    ensures ExactVersion(cs) == ExactText(cs)
  {
    if cs != [] { ExactSame(cs[1..]); }
  }

  lemma {:induction false} VisitedRest(web: Web, lv: string, q: Query, host: string, servers: seq<string>, i: nat)
    requires servers != []
    ensures Visited(web, lv, q, host, servers, i + 1) <==>
      !HasExact(q, RowsAt(web, lv, q, host, servers[0])) && Visited(web, lv, q, host, servers[1..], i)
  {
    var rest := servers[1..];
    if Visited(web, lv, q, host, servers, i + 1) {
      forall j | 0 <= j < i ensures !HasExact(q, RowsAt(web, lv, q, host, rest[j])) {
        assert rest[j] == servers[j + 1];
      }
    }
    if !HasExact(q, RowsAt(web, lv, q, host, servers[0])) && Visited(web, lv, q, host, rest, i) {
      forall j | 0 <= j < i + 1 ensures !HasExact(q, RowsAt(web, lv, q, host, servers[j])) {
        if j > 0 { assert rest[j - 1] == servers[j]; }
      }
    }
  }

  /** The first server, and the others if it does not have the version asked for. */
  lemma {:induction false} FirstServer(web: Web, lv: string, q: Query, host: string, servers: seq<string>)
    requires servers != []
    ensures
      var rows := RowsAt(web, lv, q, host, servers[0]);
      && (forall f :: FromServers(web, lv, q, host, servers, f) <==>
            f in rows || (!HasExact(q, rows) && FromServers(web, lv, q, host, servers[1..], f)))
      && (LoadFails(web, lv, q, host, servers) <==>
            ManifestAt(web, lv, q, servers[0]).Nothing?
            || (!HasExact(q, rows) && LoadFails(web, lv, q, host, servers[1..])))
  {
    var rows := RowsAt(web, lv, q, host, servers[0]);
    var rest := servers[1..];
    assert Visited(web, lv, q, host, servers, 0);
    forall f ensures FromServers(web, lv, q, host, servers, f) <==>
      f in rows || (!HasExact(q, rows) && FromServers(web, lv, q, host, rest, f))
    {
      if FromServers(web, lv, q, host, servers, f) && f !in rows {
        var i: nat :| FromServer(web, lv, q, host, servers, f, i);
        VisitedRest(web, lv, q, host, servers, i - 1);
        assert FromServer(web, lv, q, host, rest, f, i - 1);
      }
      if f in rows {
        assert FromServer(web, lv, q, host, servers, f, 0);
      } else if !HasExact(q, rows) && FromServers(web, lv, q, host, rest, f) {
        var i: nat :| FromServer(web, lv, q, host, rest, f, i);
        VisitedRest(web, lv, q, host, servers, i);
        assert FromServer(web, lv, q, host, servers, f, i + 1);
      }
    }
    FirstFails(web, lv, q, host, servers);
  }

  lemma {:induction false} FirstFails(web: Web, lv: string, q: Query, host: string, servers: seq<string>)
    requires servers != []
    ensures
      LoadFails(web, lv, q, host, servers) <==>
        || ManifestAt(web, lv, q, servers[0]).Nothing?
        || (!HasExact(q, RowsAt(web, lv, q, host, servers[0])) && LoadFails(web, lv, q, host, servers[1..]))
  {
    var rest := servers[1..];
    if LoadFails(web, lv, q, host, servers) && ManifestAt(web, lv, q, servers[0]).Just? {
      var i: nat :| LoadFailsAt(web, lv, q, host, servers, i);
      VisitedRest(web, lv, q, host, servers, i - 1);
      assert LoadFailsAt(web, lv, q, host, rest, i - 1);
    }
    if ManifestAt(web, lv, q, servers[0]).Nothing? {
      assert LoadFailsAt(web, lv, q, host, servers, 0);
    } else if !HasExact(q, RowsAt(web, lv, q, host, servers[0])) && LoadFails(web, lv, q, host, rest) {
      var i: nat :| LoadFailsAt(web, lv, q, host, rest, i);
      VisitedRest(web, lv, q, host, servers, i);
      assert LoadFailsAt(web, lv, q, host, servers, i + 1);
    }
  }

  lemma {:induction false} WalkMeaning(web: Web, lv: string, q: Query, host: string, servers: seq<string>,
                                       found: seq<Found>, failed: bool)
    requires !HasExact(q, found)
    ensures
      var r := Walk(web, lv, q, AcceptedSet(q.arch, host), servers, found, failed);
      && (forall f :: f in r.0 <==> f in found || FromServers(web, lv, q, host, servers, f))
      && (r.1 <==> failed || LoadFails(web, lv, q, host, servers))
    decreases |servers|
  {
    if servers != [] {
      var rows := RowsAt(web, lv, q, host, servers[0]);
      FirstServer(web, lv, q, host, servers);
      ExactIs(q, found, rows);
      if ManifestAt(web, lv, q, servers[0]).Nothing? {
        WalkMeaning(web, lv, q, host, servers[1..], found, true);
      } else if !HasExact(q, rows) {
        assert !HasExact(q, found + rows);
        WalkMeaning(web, lv, q, host, servers[1..], found + rows, failed);
      }
    }
  }

  /** A search finds the offerings asked for on every server up to the first one that has
      the very version asked for, and the rocks that the VM supplies; it fails when it finds
      nothing and a server could not be read. */
  lemma {:induction false} SearchFinds(web: Web, lv: string, q: Query, host: string, servers: seq<string>)
    ensures
      var r := SearchRows(web, lv, host, servers, q);
      var supplied := q.namespace == "" && ArchAsked(q, "installed", host);
      && (r.Nothing? ==>
            && LoadFails(web, lv, q, host, servers)
            && forall f :: !FromServers(web, lv, q, host, servers, f) && !(supplied && SuppliedRow(q, f)))
      && (r.Just? ==>
            && (forall f :: f in r.value <==>
                  FromServers(web, lv, q, host, servers, f) || (supplied && SuppliedRow(q, f)))
            && (r.value == [] ==> !LoadFails(web, lv, q, host, servers)))
  {
    WalkMeaning(web, lv, q, host, servers, [], false);
    ProvidedMeaning(q, AcceptedSet(q.arch, host));
    ArchIsAsked(q, "installed", host);
  }
}
