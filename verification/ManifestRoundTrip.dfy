/** What a tree manifest is after it was written and read again. */
module ManifestRoundTrip {
  import opened LuaValue
  import opened LuaText
  import opened LuaGrammar
  import opened LuaRoundTrip
  import opened LuaFaithful
  import opened Versions
  import opened Constraints
  import opened Rocks
  import opened Tables
  import opened ConstraintStore
  import opened ManifestStore

  // ---- what the store keeps ------------------------------------------------

  /** Only installed entries keep their resolved dependencies. */
  function StoredEntry(e: RepoEntry): RepoEntry {
    if e.arch == "installed" then e else e.(dependencies := map[])
  }

  function StoredVersions(versions: map<string, RepoEntry>): map<string, RepoEntry> {
    MapValues(versions, StoredEntry)
  }

  function StoredDepVersions(versions: map<string, seq<Dep>>): map<string, seq<Dep>> {
    MapValues(versions, StoredDeps)
  }

  function StoredManifest(m: Manifest): Manifest {
    Manifest(MapValues(m.repository, StoredVersions), m.modules, m.commands,
             MapValues(m.dependencies, StoredDepVersions))
  }

  predicate NoEmptyList(index: Providers) {
    forall k :: k in index ==> index[k] != []
  }

  /** The manifests that can be read again: an empty provider list is written `{}`,
      and that is a map to the reader. */
  predicate Loadable(m: Manifest) {
    NoEmptyList(m.modules) && NoEmptyList(m.commands)
  }

  // ---- table to manifest after manifest to table ---------------------------

  lemma {:induction false} StringsBack(xs: seq<string>)
    ensures StringsFrom(StringsTable(xs)) == if xs == [] then Nothing else Just(xs)
  {
    var vs := StoreSeq(xs, StringValue);
    ArrayShape(vs);
    ArrayElements(vs, map[]);
    LoadsSeqOnce(vs, StringFrom, Just(xs));
  }

  lemma {:induction false} ProvidersBack(index: Providers)
    ensures ProvidersFrom(ProvidersTable(index)) == if NoEmptyList(index) then Just(index) else Nothing
  {
    var rec := StoreMap(index, StringsTable);
    forall k | k in index
      ensures StringsFrom(StringsTable(index[k])) == if index[k] == [] then Nothing else Just(index[k])
    {
      StringsBack(index[k]);
    }
    LoadsMapOnce(rec, StringsFrom, if NoEmptyList(index) then Just(index) else Nothing);
  }

  lemma {:induction false} StringMapBack(m: map<string, string>)
    ensures LoadMap(StringMapTable(m).rec, StringFrom) == Just(m)
  {
    LoadsMapOnce(StringMapTable(m).rec, StringFrom, Just(m));
  }

  /** The index kept under one key of an arch entry. */
  lemma {:induction false} IndexBack(rec: map<string, Value>, key: string, m: map<string, string>)
    requires if key in rec then rec[key] == StringMapTable(m) else m == map[]
    ensures IndexAt(rec, key) == Just(m)
  {
    StringMapBack(m);
  }

  lemma {:induction false} EntryFieldKeys(e: RepoEntry)
    ensures var rec, kept := EntryFields(e), StoredEntry(e);
      && "arch" in rec && rec["arch"] == Str(e.arch)
      && (if "modules" in rec then rec["modules"] == StringMapTable(kept.modules) else kept.modules == map[])
      && (if "commands" in rec then rec["commands"] == StringMapTable(kept.commands) else kept.commands == map[])
      && (if "dependencies" in rec then rec["dependencies"] == StringMapTable(kept.dependencies)
          else kept.dependencies == map[])
  {
  }

  lemma {:induction false} EntryFieldsBack(e: RepoEntry)
    ensures EntryOfFields(EntryFields(e)) == Just(StoredEntry(e))
  {
    var rec, kept := EntryFields(e), StoredEntry(e);
    EntryFieldKeys(e);
    IndexBack(rec, "modules", kept.modules);
    IndexBack(rec, "commands", kept.commands);
    IndexBack(rec, "dependencies", kept.dependencies);
  }

  lemma {:induction false} EntryBack(e: RepoEntry)
    ensures ArchEntryFrom(EntryTable(e)) == Just(StoredEntry(e))
  {
    var xs := [MapOf(EntryFields(e))];
    ArrayShape(xs);
    ArrayElements(xs, map[]);
    EntryFieldsBack(e);
  }

  lemma {:induction false} VersionsBack(versions: map<string, RepoEntry>)
    ensures VersionsFrom(VersionsTable(versions)) == Just(StoredVersions(versions))
  {
    forall v | v in versions ensures ArchEntryFrom(EntryTable(versions[v])) == Just(StoredEntry(versions[v])) {
      EntryBack(versions[v]);
    }
    StoreLoadMap(versions, EntryTable, ArchEntryFrom, StoredEntry);
  }

  lemma {:induction false} RepositoryBack(repository: map<string, map<string, RepoEntry>>)
    ensures RepositoryFrom(RepositoryTable(repository)) == Just(MapValues(repository, StoredVersions))
  {
    forall k | k in repository
      ensures VersionsFrom(VersionsTable(repository[k])) == Just(StoredVersions(repository[k]))
    {
      VersionsBack(repository[k]);
    }
    StoreLoadMap(repository, VersionsTable, VersionsFrom, StoredVersions);
  }

  lemma {:induction false} DepVersionsBack(versions: map<string, seq<Dep>>)
    requires StorableVersions(versions)
    ensures DepVersionsFrom(DepVersionsTable(versions)) == Just(StoredDepVersions(versions))
  {
    forall v | v in versions ensures DepListFrom(DepsTable(versions[v])) == Just(StoredDeps(versions[v])) {
      DepListBack(versions[v]);
    }
    StoreLoadMap(versions, DepsTable, DepListFrom, StoredDeps);
  }

  lemma {:induction false} DependenciesBack(dependencies: map<string, map<string, seq<Dep>>>)
    requires forall k :: k in dependencies ==> StorableVersions(dependencies[k])
    ensures DependenciesFrom(DependenciesTable(dependencies))
         == Just(MapValues(dependencies, StoredDepVersions))
  {
    forall k | k in dependencies
      ensures DepVersionsFrom(DepVersionsTable(dependencies[k])) == Just(StoredDepVersions(dependencies[k]))
    {
      DepVersionsBack(dependencies[k]);
    }
    StoreLoadMap(dependencies, DepVersionsTable, DepVersionsFrom, StoredDepVersions);
  }

  lemma {:induction false} SectionsAre(commands: Value, modules: Value, repository: Value, dependencies: Value)
    ensures var rec := Sections(commands, modules, repository, dependencies);
      && SectionAt(rec, "commands", ProvidersFrom) == ProvidersFrom(commands)
      && SectionAt(rec, "modules", ProvidersFrom) == ProvidersFrom(modules)
      && SectionAt(rec, "repository", RepositoryFrom) == RepositoryFrom(repository)
      && SectionAt(rec, "dependencies", DependenciesFrom) == DependenciesFrom(dependencies)
  {
  }

  /** manifestFromTable after manifestToTable fails exactly on empty provider lists. */
  lemma {:induction false} ManifestBack(m: Manifest)
    requires Storable(m)
    ensures ManifestFrom(ManifestTable(m).rec) == if Loadable(m) then Just(StoredManifest(m)) else Nothing
  {
    SectionsAre(ProvidersTable(m.commands), ProvidersTable(m.modules),
                RepositoryTable(m.repository), DependenciesTable(m.dependencies));
    ProvidersBack(m.modules);
    ProvidersBack(m.commands);
    RepositoryBack(m.repository);
    DependenciesBack(m.dependencies);
  }

  // ---- whole decimals make no difference ------------------------------------

  lemma {:induction false} StringsBlind()
    ensures Blind(StringFrom) && Blind(StringsFrom)
  {
    assert Blind(StringFrom);
    forall v ensures StringsFrom(Normal(v)) == StringsFrom(v) {
      if v.Table? {
        NormalShape(v);
        BlindSeq(v, StringFrom);
      }
    }
  }

  /** A loader of maps is blind when the loader of their values is. */
  lemma {:induction false} MapLoaderBlind<T>(load: Value -> Maybe<T>, loadMap: Value -> Maybe<map<string, T>>)
    requires Blind(load)
    requires forall v :: loadMap(v) == if IsMap(v) then LoadMap(v.rec, load) else Nothing
    ensures Blind(loadMap)
  {
    forall v ensures loadMap(Normal(v)) == loadMap(v) {
      if v.Table? {
        NormalShape(v);
        BlindMap(v, load);
      }
    }
  }

  lemma {:induction false} IndexBlind(v: Value, key: string)
    requires v.Table?
    ensures IndexAt(Normal(v).rec, key) == IndexAt(v.rec, key)
  {
    NormalShape(v);
    StringsBlind();
    if key in v.rec && v.rec[key].Table? {
      NormalShape(v.rec[key]);
      BlindMap(v.rec[key], StringFrom);
    }
  }

  lemma {:induction false} EntryBlind()
    ensures Blind(ArchEntryFrom)
  {
    forall v ensures ArchEntryFrom(Normal(v)) == ArchEntryFrom(v) {
      if v.Table? {
        NormalShape(v);
        NormalElements(v);
        if IsArray(v) && Elements(v)[0].Table? {
          EntryFieldsBlind(Elements(v)[0]);
        }
      }
    }
  }

  lemma {:induction false} EntryFieldsBlind(v: Value)
    requires v.Table?
    ensures EntryOfFields(Normal(v).rec) == EntryOfFields(v.rec)
    ensures IsMap(Normal(v)) == IsMap(v)
  {
    NormalShape(v);
    IndexBlind(v, "modules");
    IndexBlind(v, "commands");
    IndexBlind(v, "dependencies");
  }

  lemma {:induction false} SectionBlind<T>(v: Value, key: string, load: Value -> Maybe<map<string, T>>)
    requires v.Table? && Blind(load)
    ensures SectionAt(Normal(v).rec, key, load) == SectionAt(v.rec, key, load)
  {
    NormalShape(v);
    if key in v.rec { BlindTo(load, v.rec[key]); }
  }

  lemma {:induction false} ManifestBlind(v: Value)
    requires v.Table?
    ensures ManifestFrom(Normal(v).rec) == ManifestFrom(v.rec)
  {
    StringsBlind();
    MapLoaderBlind(StringsFrom, ProvidersFrom);
    SectionBlind(v, "modules", ProvidersFrom);
    SectionBlind(v, "commands", ProvidersFrom);
    EntryBlind();
    MapLoaderBlind(ArchEntryFrom, VersionsFrom);
    MapLoaderBlind(VersionsFrom, RepositoryFrom);
    SectionBlind(v, "repository", RepositoryFrom);
    DepListBlind();
    MapLoaderBlind(DepListFrom, DepVersionsFrom);
    MapLoaderBlind(DepVersionsFrom, DependenciesFrom);
    SectionBlind(v, "dependencies", DependenciesFrom);
  }

  // ---- manifests whose table is clean --------------------------------------

  /** The parts of an entry that are stored. */
  predicate CleanEntry(e: RepoEntry) {
    && NoReturn(e.arch) && NoReturns(e.modules) && NoReturns(e.commands)
    && (e.arch == "installed" ==> NoReturns(e.dependencies))
  }

  predicate CleanDep(d: Dep) {
    && NoReturn(d.name)
    && forall i :: 0 <= i < |d.constraints| ==>
         NoReturn(d.constraints[i].op) && NoReturn(d.constraints[i].version.raw)
  }

  predicate CleanDeps(ds: seq<Dep>) {
    forall i :: 0 <= i < |ds| ==> CleanDep(ds[i])
  }

  predicate PlainList(xs: seq<string>) {
    forall i :: 0 <= i < |xs| ==> !HasNewline(xs[i])
  }

  /** Provider tokens stand in arrays, where a newline is fatal. */
  predicate PlainTokens(index: Providers) {
    forall k :: k in index ==> PlainList(index[k])
  }

  predicate CleanKeys<T>(m: map<string, T>) {
    forall k :: k in m ==> NoReturn(k)
  }

  predicate CleanVersions(versions: map<string, RepoEntry>) {
    CleanKeys(versions) && forall v :: v in versions ==> CleanEntry(versions[v])
  }

  predicate CleanDepVersions(versions: map<string, seq<Dep>>) {
    CleanKeys(versions) && forall v :: v in versions ==> CleanDeps(versions[v])
  }

  /** No carriage returns in anything stored but the provider tokens. */
  predicate CleanNames(m: Manifest) {
    && CleanKeys(m.modules) && CleanKeys(m.commands)
    && CleanKeys(m.repository) && CleanKeys(m.dependencies)
    && (forall k :: k in m.repository ==> CleanVersions(m.repository[k]))
    && (forall k :: k in m.dependencies ==> CleanDepVersions(m.dependencies[k]))
  }

  predicate CleanManifest(m: Manifest) {
    Storable(m) && CleanNames(m)
  }

  lemma {:induction false} CleanStored<T>(m: map<string, T>, store: T --> Value)
    requires CleanKeys(m) && forall k :: k in m ==> store.requires(m[k]) && Clean(store(m[k]))
    ensures Clean(MapOf(StoreMap(m, store)))
  {
  }

  lemma {:induction false} CleanStringMap(m: map<string, string>)
    requires NoReturns(m)
    ensures Clean(StringMapTable(m))
  {
    CleanStored(m, StringValue);
  }

  lemma {:induction false} CleanField(rec: map<string, Value>, key: string, v: Value)
    requires Clean(MapOf(rec)) && NoReturn(key) && Clean(v)
    ensures Clean(MapOf(rec[key := v]))
  {
  }

  lemma {:induction false} CleanFour(k: string, v: Value, k': string, v': Value,
                                     l: string, w: Value, l': string, w': Value)
    requires NoReturn(k) && NoReturn(k') && NoReturn(l) && NoReturn(l')
    requires Clean(v) && Clean(v') && Clean(w) && Clean(w')
    ensures Clean(MapOf(map[k := v][k' := v'][l := w][l' := w']))
  {
    CleanField(map[], k, v);
    CleanField(map[k := v], k', v');
    CleanField(map[k := v][k' := v'], l, w);
    CleanField(map[k := v][k' := v'][l := w], l', w');
  }

  lemma {:induction false} CleanWithIndex(fields: map<string, Value>, key: string, index: map<string, string>)
    requires Clean(MapOf(fields)) && NoReturn(key) && NoReturns(index)
    ensures Clean(MapOf(WithIndex(fields, key, index)))
  {
    CleanStringMap(index);
    CleanField(fields, key, StringMapTable(index));
  }

  lemma {:induction false} CleanInstalled(e: RepoEntry)
    requires CleanEntry(e) && e.arch == "installed"
    ensures Clean(MapOf(EntryFields(e)))
  {
    CleanStringMap(e.modules);
    CleanStringMap(e.commands);
    CleanStringMap(e.dependencies);
    CleanFour("arch", Str(e.arch), "modules", StringMapTable(e.modules),
              "commands", StringMapTable(e.commands), "dependencies", StringMapTable(e.dependencies));
  }

  lemma {:induction false} CleanEntryFields(e: RepoEntry)
    requires CleanEntry(e)
    ensures Clean(MapOf(EntryFields(e)))
  {
    if e.arch == "installed" {
      CleanInstalled(e);
    } else {
      CleanField(map[], "arch", Str(e.arch));
      CleanWithIndex(map["arch" := Str(e.arch)], "modules", e.modules);
      CleanWithIndex(WithIndex(map["arch" := Str(e.arch)], "modules", e.modules), "commands", e.commands);
    }
  }

  lemma {:induction false} CleanEntryTable(e: RepoEntry)
    requires CleanEntry(e)
    ensures Clean(EntryTable(e))
  {
    CleanEntryFields(e);
    CleanArray([MapOf(EntryFields(e))]);
  }

  lemma {:induction false} CleanMixed(xs: seq<Value>, rec: map<string, Value>)
    requires Clean(ArrayOf(xs)) && Clean(MapOf(rec))
    ensures Clean(Table(Numbered(xs), rec))
  {
  }

  lemma {:induction false} CleanVersionFields(v: Version)
    requires StorableVersion(v) && NoReturn(v.raw)
    ensures Clean(MapOf(VersionFields(v)))
  {
    CleanField(map[], "string", Str(v.raw));
    if v.hasRevision {
      CleanField(map["string" := Str(v.raw)], "revision", Int(v.revision));
    }
  }

  lemma {:induction false} CleanVersion(v: Version)
    requires StorableVersion(v) && NoReturn(v.raw)
    ensures Clean(VersionTable(v))
  {
    var xs := StoreSeq(v.components, ComponentValue);
    forall x | x in xs ensures Clean(x) && !MistakenForKey(x) {
      assert x.Dec?;
    }
    CleanArray(xs);
    CleanVersionFields(v);
    CleanMixed(xs, VersionFields(v));
  }

  lemma {:induction false} CleanConstraint(c: Constraint)
    requires StorableConstraint(c) && NoReturn(c.op) && NoReturn(c.version.raw)
    ensures Clean(ConstraintTable(c))
  {
    CleanVersion(c.version);
    CleanConstraintFields(Str(c.op), VersionTable(c.version));
  }

  lemma {:induction false} CleanConstraintFields(op: Value, version: Value)
    requires Clean(op) && Clean(version)
    ensures Clean(MapOf(ConstraintFields(op, version)))
  {
    CleanField(map[], "op", op);
    CleanField(map["op" := op], "version", version);
  }

  lemma {:induction false} CleanDepTable(d: Dep)
    requires StorableDep(d) && CleanDep(d)
    ensures Clean(DepTable(d))
  {
    var xs := StoreSeq(d.constraints, ConstraintTable);
    forall x | x in xs ensures Clean(x) && !MistakenForKey(x) {
      var i :| 0 <= i < |xs| && xs[i] == x;
      CleanConstraint(d.constraints[i]);
    }
    CleanArray(xs);
    CleanDepFields(d.name, xs);
  }

  lemma {:induction false} CleanDepFields(name: string, xs: seq<Value>)
    requires NoReturn(name) && Clean(ArrayOf(xs))
    ensures Clean(MapOf(DepFields(name, xs)))
  {
    CleanField(map[], "name", Str(name));
    CleanField(map["name" := Str(name)], "constraints", ArrayOf(xs));
  }

  lemma {:induction false} CleanDepsTable(ds: seq<Dep>)
    requires StorableDeps(ds) && CleanDeps(ds)
    ensures Clean(DepsTable(ds))
  {
    var xs := StoreSeq(ds, DepTable);
    forall x | x in xs ensures Clean(x) && !MistakenForKey(x) {
      var i :| 0 <= i < |xs| && xs[i] == x;
      CleanDepTable(ds[i]);
    }
    CleanArray(xs);
  }

  lemma {:induction false} CleanProviders(index: Providers)
    requires CleanKeys(index) && PlainTokens(index)
    ensures Clean(ProvidersTable(index))
  {
    forall k | k in index ensures Clean(StringsTable(index[k])) {
      var xs := StoreSeq(index[k], StringValue);
      forall x | x in xs ensures Clean(x) && !MistakenForKey(x) {
        var i :| 0 <= i < |xs| && xs[i] == x;
        assert !HasNewline(index[k][i]);
      }
      CleanArray(xs);
    }
    CleanStored(index, StringsTable);
  }

  lemma {:induction false} CleanRepository(repository: map<string, map<string, RepoEntry>>)
    requires CleanKeys(repository) && forall k :: k in repository ==> CleanVersions(repository[k])
    ensures Clean(RepositoryTable(repository))
  {
    forall k | k in repository ensures Clean(VersionsTable(repository[k])) {
      forall v | v in repository[k] ensures Clean(EntryTable(repository[k][v])) {
        CleanEntryTable(repository[k][v]);
      }
      CleanStored(repository[k], EntryTable);
    }
    CleanStored(repository, VersionsTable);
  }

  lemma {:induction false} CleanDependencies(dependencies: map<string, map<string, seq<Dep>>>)
    requires CleanKeys(dependencies)
    requires forall k :: k in dependencies ==> StorableVersions(dependencies[k]) && CleanDepVersions(dependencies[k])
    ensures Clean(DependenciesTable(dependencies))
  {
    forall k | k in dependencies ensures Clean(DepVersionsTable(dependencies[k])) {
      forall v | v in dependencies[k] ensures Clean(DepsTable(dependencies[k][v])) {
        CleanDepsTable(dependencies[k][v]);
      }
      CleanStored(dependencies[k], DepsTable);
    }
    CleanStored(dependencies, DepVersionsTable);
  }

  lemma {:induction false} CleanSections(commands: Value, modules: Value, repository: Value, dependencies: Value)
    requires Clean(commands) && Clean(modules) && Clean(repository) && Clean(dependencies)
    ensures Clean(MapOf(Sections(commands, modules, repository, dependencies)))
  {
    CleanFour("commands", commands, "modules", modules, "repository", repository, "dependencies", dependencies);
  }

  lemma {:induction false} CleanTable(m: Manifest)
    requires CleanManifest(m) && PlainTokens(m.modules) && PlainTokens(m.commands)
    ensures Clean(ManifestTable(m))
  {
    CleanProviders(m.modules);
    CleanProviders(m.commands);
    CleanRepository(m.repository);
    CleanDependencies(m.dependencies);
    CleanSections(ProvidersTable(m.commands), ProvidersTable(m.modules),
                  RepositoryTable(m.repository), DependenciesTable(m.dependencies));
  }

  // ---- files ---------------------------------------------------------------

  lemma {:induction false} SectionsArePlain(m: Manifest)
    requires Storable(m)
    ensures Writable(ManifestTable(m))
  {
    assert IsPlainKey("commands") && IsPlainKey("modules");
    assert IsPlainKey("repository") && IsPlainKey("dependencies");
  }

  /** The bytes FileStore.WriteTree leaves on disk. */
  function TreeFile(m: Manifest): string
    requires Storable(m)
  {
    SectionsArePlain(m);
    FileText(ManifestTable(m))
  }

  /** FileStore.ReadTree on the bytes of the file. */
  function ReadTree(text: string): Maybe<Manifest> {
    var r := Read(text);
    if r.Ok? && IsMap(r.value) then ManifestFrom(r.value.rec) else Nothing
  }

  lemma {:induction false} NewlineFails(xs: seq<string>)
    requires !PlainList(xs)
    ensures !Readable(StringsTable(xs))
  {
    var i :| 0 <= i < |xs| && HasNewline(xs[i]);
    var vs := StoreSeq(xs, StringValue);
    assert Numbered(vs)[i + 1] == vs[i];
  }

  /** A token that holds a newline makes the written manifest unreadable. */
  lemma {:induction false} NewlineTokenFails(index: Providers)
    requires !PlainTokens(index)
    ensures !Readable(ProvidersTable(index))
  {
    var k :| k in index && !PlainList(index[k]);
    NewlineFails(index[k]);
    UnreadableField(StoreMap(index, StringsTable), k);
  }

  lemma {:induction false} UnreadableField(rec: map<string, Value>, k: string)
    requires k in rec && !Readable(rec[k])
    ensures !Readable(MapOf(rec))
  {
  }

  lemma {:induction false} SectionFails(commands: Value, modules: Value, repository: Value, dependencies: Value)
    requires !Readable(commands) || !Readable(modules)
    ensures !Readable(MapOf(Sections(commands, modules, repository, dependencies)))
  {
    var rec := Sections(commands, modules, repository, dependencies);
    assert rec["commands"] == commands && rec["modules"] == modules;
  }

  lemma {:induction false} PlainFileBack(m: Manifest)
    requires CleanManifest(m) && PlainTokens(m.modules) && PlainTokens(m.commands)
    ensures ReadTree(TreeFile(m)) == ManifestFrom(ManifestTable(m).rec)
  {
    SectionsArePlain(m);
    CleanTable(m);
    var v := ManifestTable(m);
    CleanFileBack(v);
    NormalShape(v);
    ManifestBlind(v);
  }

  lemma {:induction false} NewlineFileFails(m: Manifest)
    requires Storable(m) && !(PlainTokens(m.modules) && PlainTokens(m.commands))
    ensures ReadTree(TreeFile(m)) == Nothing
  {
    SectionsArePlain(m);
    if !PlainTokens(m.modules) { NewlineTokenFails(m.modules); } else { NewlineTokenFails(m.commands); }
    SectionFails(ProvidersTable(m.commands), ProvidersTable(m.modules),
                 RepositoryTable(m.repository), DependenciesTable(m.dependencies));
    FileBack(ManifestTable(m));
  }

  /** ReadTree after WriteTree succeeds exactly when no provider list is empty and no
      provider token holds a newline, and then gives the manifest the store keeps. */
  lemma {:induction false} TreeFileBack(m: Manifest)
    requires CleanManifest(m)
    ensures ReadTree(TreeFile(m))
         == if Loadable(m) && PlainTokens(m.modules) && PlainTokens(m.commands) then Just(StoredManifest(m))
            else Nothing
  {
    if PlainTokens(m.modules) && PlainTokens(m.commands) {
      PlainFileBack(m);
      ManifestBack(m);
    } else {
      NewlineFileFails(m);
    }
  }
}
