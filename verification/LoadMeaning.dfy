/** Which files of a server a load reads, and what it takes from them. */
module LoadMeaning {
  import opened Text
  import opened LuaValue
  import opened LuaGrammar
  import opened Tables
  import opened Rocks
  import opened RemoteManifests
  import opened ManifestCaches
  import opened ArtifactURLs

  // ---- local servers ---------------------------------------------------------

  /** A server that is a directory: one written with the file scheme, or one with no
      scheme at all. */
  lemma {:induction false} DirectoryMeaning(server: string)
    ensures
      var dir := LocalServerPath(server);
      if HasFileScheme(server) then dir == Just(server[7..])
      else if server != "" && !Contains(server, "://") then dir == Just(server)
      else dir.Nothing?
  {
    SchemeIs(server);
  }

  lemma {:induction false} OneBase(server: string, base: string)
    requires BaseOfServer(server, false, base)
    ensures base == TrimSlashes(server)
  {
    if server != "" && server[|server| - 1] == '/' {
      var init := server[..|server| - 1];
      assert |base| < |server|;
      assert BaseOfServer(init, false, base);
      OneBase(init, base);
    }
  }

  // ---- the files that are read -----------------------------------------------

  /** root is what stands before the names of a server's files. */
  ghost predicate RootOf(server: string, directory: bool, root: string) {
    if directory then root == if HasFileScheme(server) then server[7..] else server
    else BaseOfServer(server, false, root)
  }

  function FolderOf(root: string, namespace: string): string {
    if namespace == "" then root + "/" else root + "/manifests/" + namespace + "/"
  }

  function FileAt(web: Web, directory: bool, path: string): Maybe<string> {
    if directory then web.read(path) else web.get(path)
  }

  /** The manifest in a Lua table. */
  function InTable(server: string, v: Maybe<Value>): Maybe<RemoteManifest> {
    if v.Just? && v.value.Table? && v.value.num == map[] then Project(server, v.value.rec) else Nothing
  }

  function InText(server: string, text: Maybe<string>): Maybe<RemoteManifest> {
    if text.Nothing? then Nothing
    else match Read(text.value)
      case Ok(v) => InTable(server, Just(v))
      case Err(_) => Nothing
  }

  function InZip(web: Web, server: string, zip: Maybe<string>, inner: string): Maybe<RemoteManifest> {
    if zip.Nothing? then Nothing else InText(server, web.unzip(zip.value, inner))
  }

  function InJSON(web: Web, server: string, text: Maybe<string>): Maybe<RemoteManifest> {
    if text.Nothing? then Nothing else InTable(server, web.json(text.value))
  }

  /** The first of four that is there. */
  function FirstOf(a: Maybe<RemoteManifest>, b: Maybe<RemoteManifest>, c: Maybe<RemoteManifest>,
                   d: Maybe<RemoteManifest>): Maybe<RemoteManifest>
  {
    if a.Just? then a else if b.Just? then b else if c.Just? then c else d
  }

  lemma {:induction false} FolderIs(server: string, namespace: string, local: bool, root: string)
    requires (local ==> IsLocal(server)) && RootOf(server, local, root)
    ensures BaseOf(server, namespace, local) == FolderOf(root, namespace)
  {
    if local { DirectoryMeaning(server); } else { OneBase(server, root); }
    assert root + "/" + "" == root + "/";
    assert root + "/" + ("manifests/" + namespace + "/") == root + "/manifests/" + namespace + "/";
  }

  lemma NextProbe(web: Web, server: string, local: bool, base: string, p: Probe, ps: seq<Probe>)
    ensures
      FirstDecoded(web, server, local, base, [p] + ps)
      == var m := TryProbe(web, server, local, base, p); if m.Just? then m else FirstDecoded(web, server, local, base, ps)
  {
    assert ([p] + ps)[0] == p && ([p] + ps)[1..] == ps;
  }

  lemma {:induction false} FourProbes(web: Web, server: string, local: bool, base: string, p: Probe, q: Probe, r: Probe,
                                      s: Probe)
    ensures
      FirstDecoded(web, server, local, base, [p, q, r, s])
      == FirstOf(TryProbe(web, server, local, base, p), TryProbe(web, server, local, base, q),
                 TryProbe(web, server, local, base, r), TryProbe(web, server, local, base, s))
  {
    assert [p, q, r, s] == [p] + [q, r, s] && [q, r, s] == [q] + [r, s] && [r, s] == [r] + [s] && [s] == [s] + [];
    NextProbe(web, server, local, base, p, [q, r, s]);
    NextProbe(web, server, local, base, q, [r, s]);
    NextProbe(web, server, local, base, r, [s]);
    NextProbe(web, server, local, base, s, []);
  }

  lemma {:induction false} ProbeReads(web: Web, server: string, local: bool, base: string, p: Probe)
    ensures
      var file := FileAt(web, local, base + p.name);
      && (p.isZip && !p.isJSON ==> TryProbe(web, server, local, base, p) == InZip(web, server, file, p.inner))
      && (!p.isZip && !p.isJSON ==> TryProbe(web, server, local, base, p) == InText(server, file))
      && (!p.isZip && p.isJSON ==> TryProbe(web, server, local, base, p) == InJSON(web, server, file))
  {
  }

  lemma {:induction false} ProbesRead(web: Web, server: string, local: bool, base: string, lv: string)
    ensures
      var versioned := "manifest-" + lv;
      FirstDecoded(web, server, local, base, Probes(lv))
      == FirstOf(InZip(web, server, FileAt(web, local, base + (versioned + ".zip")), versioned),
                 InText(server, FileAt(web, local, base + versioned)),
                 InText(server, FileAt(web, local, base + "manifest")),
                 InJSON(web, server, FileAt(web, local, base + (versioned + ".json"))))
  {
    var versioned := "manifest-" + lv;
    var p, q := Probe(versioned + ".zip", false, true, versioned), Probe(versioned, false, false, "");
    var r, s := Probe("manifest", false, false, ""), Probe(versioned + ".json", true, false, "");
    assert Probes(lv) == [p, q, r, s];
    FourProbes(web, server, local, base, p, q, r, s);
    ProbeReads(web, server, local, base, p);
    ProbeReads(web, server, local, base, q);
    ProbeReads(web, server, local, base, r);
    ProbeReads(web, server, local, base, s);
  }

  /** A load takes the first of the four manifests of a folder that can be read: the zipped
      one and the plain one of the Lua version, 5.1 when none is set, the plain one, and
      the one in JSON.  A directory has to be there. */
  lemma {:induction false} LoadReads(web: Web, server: string, namespace: string, luaVersion: string, local: bool,
                                     root: string)
    requires (local ==> IsLocal(server)) && RootOf(server, local, root)
    ensures
      var folder := FolderOf(root, namespace);
      var versioned := if luaVersion == "" then "manifest-5.1" else "manifest-" + luaVersion;
      FreshBy(web, Key(server, namespace, LuaVersion(luaVersion)), local)
      == if local && !web.isDir(folder) then Nothing
         else FirstOf(InZip(web, server, FileAt(web, local, folder + (versioned + ".zip")), versioned),
                      InText(server, FileAt(web, local, folder + versioned)),
                      InText(server, FileAt(web, local, folder + "manifest")),
                      InJSON(web, server, FileAt(web, local, folder + (versioned + ".json"))))
  {
    var folder := FolderOf(root, namespace);
    FolderIs(server, namespace, local, root);
    assert "manifest-" + "5.1" == "manifest-5.1";
    ProbesRead(web, server, local, folder, LuaVersion(luaVersion));
  }

  // ---- what a manifest lists -------------------------------------------------

  function EntryTable(arch: string): Value {
    MapOf(map["arch" := Str(arch)])
  }

  /** The entries of a version, as the manifest lists them. */
  function EntriesTable(arches: seq<string>): Value {
    ArrayOf(MapSeq(arches, EntryTable))
  }

  function VersionsTable(versions: map<string, seq<string>>): Value {
    MapOf(MapValues(versions, EntriesTable))
  }

  /** A manifest that lists each version of each rock with its arches. */
  function ManifestTable(repository: map<string, map<string, seq<string>>>): map<string, Value> {
    map["repository" := MapOf(MapValues(repository, VersionsTable))]
  }

  ghost predicate SomeArches(repository: map<string, map<string, seq<string>>>) {
    forall n :: n in repository ==> forall v :: v in repository[n] ==> repository[n][v] != []
  }

  lemma EntryBack(arch: string)
    ensures ArchFrom(EntryTable(arch)) == Just(arch)
  {
  }

  lemma {:induction false} EntriesBack(arches: seq<string>)
    ensures LoadSeq(MapSeq(arches, EntryTable), ArchFrom) == Just(arches)
  {
    var xs := MapSeq(arches, EntryTable);
    forall i | 0 <= i < |xs| ensures ArchFrom(xs[i]) == Just(arches[i]) {
      EntryBack(arches[i]);
    }
    LoadsSeqOnce(xs, ArchFrom, Just(arches));
  }

  lemma {:induction false} ArchesAre(xs: seq<Value>)
    requires xs != []
    ensures ArchesFrom(ArrayOf(xs)) == LoadSeq(xs, ArchFrom)
  {
    ArrayShape(xs);
    ArrayElements(xs, map[]);
  }

  lemma {:induction false} ArchesBack(arches: seq<string>)
    requires arches != []
    ensures ArchesFrom(EntriesTable(arches)) == Just(arches)
  {
    ArchesAre(MapSeq(arches, EntryTable));
    EntriesBack(arches);
  }

  lemma {:induction false} VersionsBack(versions: map<string, seq<string>>)
    requires forall v :: v in versions ==> versions[v] != []
    ensures OffersFrom(VersionsTable(versions)) == Just(versions)
  {
    var rec := MapValues(versions, EntriesTable);
    forall v | v in versions ensures ArchesFrom(rec[v]) == Just(versions[v]) {
      ArchesBack(versions[v]);
    }
    LoadsMapOnce(rec, ArchesFrom, Just(versions));
  }

  /** What the manifest lists is what the load takes from it. */
  lemma {:induction false} ProjectBack(server: string, repository: map<string, map<string, seq<string>>>)
    requires SomeArches(repository)
    ensures Project(server, ManifestTable(repository)) == Just(RemoteManifest(server, repository))
  {
    var rec := MapValues(repository, VersionsTable);
    forall n | n in repository ensures OffersFrom(rec[n]) == Just(repository[n]) {
      VersionsBack(repository[n]);
    }
    LoadsMapOnce(rec, OffersFrom, Just(repository));
  }
}
