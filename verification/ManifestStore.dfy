/** manif/store.go: the tree manifest as a Lua table and as a file. */
module ManifestStore {
  import opened LuaValue
  import opened Rocks
  import opened Tables
  import opened ConstraintStore

  // ---- manifest to table ---------------------------------------------------

  function StringValue(s: string): Value {
    Str(s)
  }

  function StringsTable(xs: seq<string>): Value {
    ArrayOf(StoreSeq(xs, StringValue))
  }

  function ProvidersTable(index: Providers): Value {
    MapOf(StoreMap(index, StringsTable))
  }

  function StringMapTable(m: map<string, string>): Value {
    MapOf(StoreMap(m, StringValue))
  }

  function InstalledFields(arch: Value, modules: Value, commands: Value, dependencies: Value): map<string, Value> {
    map["arch" := arch]["modules" := modules]["commands" := commands]["dependencies" := dependencies]
  }

  /** A section that is left out when it is empty. */
  function WithIndex(fields: map<string, Value>, key: string, index: map<string, string>): map<string, Value> {
    if index != map[] then fields[key := StringMapTable(index)] else fields
  }

  /** The fields of an arch entry: installed entries carry all three indexes, others
      only the indexes that are not empty. */
  function EntryFields(e: RepoEntry): map<string, Value> {
    if e.arch == "installed" then
      InstalledFields(Str(e.arch), StringMapTable(e.modules), StringMapTable(e.commands), StringMapTable(e.dependencies))
    else
      WithIndex(WithIndex(map["arch" := Str(e.arch)], "modules", e.modules), "commands", e.commands)
  }

  function EntryTable(e: RepoEntry): Value {
    ArrayOf([MapOf(EntryFields(e))])
  }

  function VersionsTable(versions: map<string, RepoEntry>): Value {
    MapOf(StoreMap(versions, EntryTable))
  }

  function RepositoryTable(repository: map<string, map<string, RepoEntry>>): Value {
    MapOf(StoreMap(repository, VersionsTable))
  }

  predicate StorableDeps(ds: seq<Dep>) {
    forall i :: 0 <= i < |ds| ==> StorableDep(ds[i])
  }

  predicate StorableVersions(versions: map<string, seq<Dep>>) {
    forall v :: v in versions ==> StorableDeps(versions[v])
  }

  function DepsTable(ds: seq<Dep>): Value
    requires StorableDeps(ds)
  {
    DepListTable(ds)
  }

  function DepVersionsTable(versions: map<string, seq<Dep>>): Value
    requires StorableVersions(versions)
  {
    MapOf(StoreMap(versions, DepsTable))
  }

  /** Manifests whose dependency versions have printable numbers. */
  predicate Storable(m: Manifest) {
    forall k :: k in m.dependencies ==> StorableVersions(m.dependencies[k])
  }

  function DependenciesTable(dependencies: map<string, map<string, seq<Dep>>>): Value
    requires forall k :: k in dependencies ==> StorableVersions(dependencies[k])
  {
    MapOf(StoreMap(dependencies, DepVersionsTable))
  }

  /** The four sections of a manifest table. */
  function Sections(commands: Value, modules: Value, repository: Value, dependencies: Value): map<string, Value> {
    map["commands" := commands]["modules" := modules]["repository" := repository]["dependencies" := dependencies]
  }

  /** manifestToTable */
  function ManifestTable(m: Manifest): Value
    requires Storable(m)
  {
    MapOf(Sections(ProvidersTable(m.commands), ProvidersTable(m.modules),
                   RepositoryTable(m.repository), DependenciesTable(m.dependencies)))
  }

  method EntryToTable(e: RepoEntry) returns (t: Value)
    ensures t == EntryTable(e)
  {
    var fields := map["arch" := Str(e.arch)];
    var modules := StoreEntries(e.modules, StringValue);
    var commands := StoreEntries(e.commands, StringValue);
    if e.arch == "installed" {
      var dependencies := StoreEntries(e.dependencies, StringValue);
      fields := fields["modules" := MapOf(modules)];
      fields := fields["commands" := MapOf(commands)];
      fields := fields["dependencies" := MapOf(dependencies)];
    } else {
      if e.modules != map[] {
        fields := fields["modules" := MapOf(modules)];
      }
      if e.commands != map[] {
        fields := fields["commands" := MapOf(commands)];
      }
    }
    return ArrayOf([MapOf(fields)]);
  }

  method RepositoryToTable(repository: map<string, map<string, RepoEntry>>) returns (t: Value)
    ensures t == RepositoryTable(repository)
  {
    var out: map<string, Value> := map[];
    var left := repository.Keys;
    while left != {}
      invariant left <= repository.Keys && out.Keys == repository.Keys - left
      invariant forall k :: k in out ==> out[k] == VersionsTable(repository[k])
      decreases |left|
    {
      var pkg :| pkg in left;
      var versions := StoreEntries(repository[pkg], EntryTable);
      out := out[pkg := MapOf(versions)];
      left := left - {pkg};
    }
    assert out == StoreMap(repository, VersionsTable);
    return MapOf(out);
  }

  method DepVersionsToTable(versions: map<string, seq<Dep>>) returns (t: Value)
    requires StorableVersions(versions)
    ensures t == DepVersionsTable(versions)
  {
    var out: map<string, Value> := map[];
    var left := versions.Keys;
    while left != {}
      invariant left <= versions.Keys && out.Keys == versions.Keys - left
      invariant StoredMapTo(versions, DepsTable, out)
      decreases |left|
    {
      var v :| v in left;
      var list := DepListToTable(versions[v]);
      out := out[v := list];
      left := left - {v};
    }
    StoredMapAll(versions, DepsTable, out);
    return MapOf(out);
  }

  method DependenciesToTable(dependencies: map<string, map<string, seq<Dep>>>) returns (t: Value)
    requires forall k :: k in dependencies ==> StorableVersions(dependencies[k])
    ensures t == DependenciesTable(dependencies)
  {
    var out: map<string, Value> := map[];
    var left := dependencies.Keys;
    while left != {}
      invariant left <= dependencies.Keys && out.Keys == dependencies.Keys - left
      invariant forall k :: k in out ==> out[k] == DepVersionsTable(dependencies[k])
      decreases |left|
    {
      var pkg :| pkg in left;
      var versions := DepVersionsToTable(dependencies[pkg]);
      out := out[pkg := versions];
      left := left - {pkg};
    }
    assert out == StoreMap(dependencies, DepVersionsTable);
    return MapOf(out);
  }

  method ManifestToTable(m: Manifest) returns (t: Value)
    requires Storable(m)
    ensures t == ManifestTable(m)
  {
    var out: map<string, Value> := map[];
    var commands := StoreEntries(m.commands, StringsTable);
    out := out["commands" := MapOf(commands)];
    var modules := StoreEntries(m.modules, StringsTable);
    out := out["modules" := MapOf(modules)];
    var repository := RepositoryToTable(m.repository);
    out := out["repository" := repository];
    var dependencies := DependenciesToTable(m.dependencies);
    out := out["dependencies" := dependencies];
    return MapOf(out);
  }

  // ---- table to manifest ---------------------------------------------------

  function StringFrom(v: Value): Maybe<string> {
    if v.Str? then Just(v.s) else Nothing
  }

  function StringsFrom(v: Value): Maybe<seq<string>> {
    if IsArray(v) then LoadSeq(Elements(v), StringFrom) else Nothing
  }

  /** loadStringListMap */
  function ProvidersFrom(v: Value): Maybe<Providers> {
    if IsMap(v) then LoadMap(v.rec, StringsFrom) else Nothing
  }

  /** An index of an arch entry: absent, not a map, and empty are all the same. */
  function IndexAt(rec: map<string, Value>, key: string): Maybe<map<string, string>> {
    if key in rec && IsMap(rec[key]) then LoadMap(rec[key].rec, StringFrom) else Just(map[])
  }

  function EntryOfFields(rec: map<string, Value>): Maybe<RepoEntry> {
    var modules, commands, dependencies :=
      IndexAt(rec, "modules"), IndexAt(rec, "commands"), IndexAt(rec, "dependencies");
    if "arch" !in rec || !rec["arch"].Str? || modules.Nothing? || commands.Nothing? || dependencies.Nothing?
    then Nothing
    else Just(RepoEntry(rec["arch"].s, modules.value, commands.value, dependencies.value))
  }

  /** extractRepoEntry: the first arch entry. */
  function ArchEntryFrom(v: Value): Maybe<RepoEntry> {
    if IsArray(v) && IsMap(Elements(v)[0]) then EntryOfFields(Elements(v)[0].rec) else Nothing
  }

  function VersionsFrom(v: Value): Maybe<map<string, RepoEntry>> {
    if IsMap(v) then LoadMap(v.rec, ArchEntryFrom) else Nothing
  }

  function RepositoryFrom(v: Value): Maybe<map<string, map<string, RepoEntry>>> {
    if IsMap(v) then LoadMap(v.rec, VersionsFrom) else Nothing
  }

  function DepVersionsFrom(v: Value): Maybe<map<string, seq<Dep>>> {
    if IsMap(v) then LoadMap(v.rec, DepListFrom) else Nothing
  }

  function DependenciesFrom(v: Value): Maybe<map<string, map<string, seq<Dep>>>> {
    if IsMap(v) then LoadMap(v.rec, DepVersionsFrom) else Nothing
  }

  /** A section of the manifest; an absent one is empty. */
  function SectionAt<T>(rec: map<string, Value>, key: string, load: Value -> Maybe<map<string, T>>): Maybe<map<string, T>> {
    if key in rec then load(rec[key]) else Just(map[])
  }

  /** manifestFromTable */
  function ManifestFrom(rec: map<string, Value>): Maybe<Manifest> {
    var modules := SectionAt(rec, "modules", ProvidersFrom);
    var commands := SectionAt(rec, "commands", ProvidersFrom);
    var repository := SectionAt(rec, "repository", RepositoryFrom);
    var dependencies := SectionAt(rec, "dependencies", DependenciesFrom);
    if modules.Nothing? || commands.Nothing? || repository.Nothing? || dependencies.Nothing? then Nothing
    else Just(Manifest(repository.value, modules.value, commands.value, dependencies.value))
  }

  method LoadStringListMap(v: Value) returns (r: Maybe<Providers>)
    ensures r == ProvidersFrom(v)
  {
    if !IsMap(v) {
      return Nothing;
    }
    var out: Providers := map[];
    var left := v.rec.Keys;
    while left != {}
      invariant left <= v.rec.Keys && out.Keys == v.rec.Keys - left
      invariant forall k :: k in out ==> StringsFrom(v.rec[k]) == Just(out[k])
      decreases |left|
    {
      var k :| k in left;
      var list: Maybe<seq<string>> := Nothing;
      if IsArray(v.rec[k]) {
        list := LoadList(Elements(v.rec[k]), StringFrom);
      }
      if list.Nothing? {
        LoadsMapOnce<seq<string>>(v.rec, StringsFrom, Nothing);
        return Nothing;
      }
      out := out[k := list.value];
      left := left - {k};
    }
    LoadsMapOnce(v.rec, StringsFrom, Just(out));
    return Just(out);
  }

  method ExtractRepoEntry(v: Value) returns (r: Maybe<RepoEntry>)
    ensures r == ArchEntryFrom(v)
  {
    if !IsArray(v) || !IsMap(Elements(v)[0]) {
      return Nothing;
    }
    var rec := Elements(v)[0].rec;
    if "arch" !in rec || !rec["arch"].Str? {
      return Nothing;
    }
    var modules := LoadIndex(rec, "modules");
    if modules.Nothing? {
      return Nothing;
    }
    var commands := LoadIndex(rec, "commands");
    if commands.Nothing? {
      return Nothing;
    }
    var dependencies := LoadIndex(rec, "dependencies");
    if dependencies.Nothing? {
      return Nothing;
    }
    return Just(RepoEntry(rec["arch"].s, modules.value, commands.value, dependencies.value));
  }

  method LoadIndex(rec: map<string, Value>, key: string) returns (r: Maybe<map<string, string>>)
    ensures r == IndexAt(rec, key)
  {
    r := Just(map[]);
    if key in rec && IsMap(rec[key]) {
      r := LoadEntries(rec[key].rec, StringFrom);
    }
  }

  /** The nested loops over names and versions. */
  method LoadNested<T>(v: Value, load: Value -> Maybe<T>, loadInner: Value -> Maybe<map<string, T>>)
    returns (r: Maybe<map<string, map<string, T>>>)
    requires forall w :: loadInner(w) == if IsMap(w) then LoadMap(w.rec, load) else Nothing
    ensures r == if IsMap(v) then LoadMap(v.rec, loadInner) else Nothing
  {
    if !IsMap(v) {
      return Nothing;
    }
    var out: map<string, map<string, T>> := map[];
    var left := v.rec.Keys;
    while left != {}
      invariant left <= v.rec.Keys && out.Keys == v.rec.Keys - left
      invariant forall k :: k in out ==> loadInner(v.rec[k]) == Just(out[k])
      decreases |left|
    {
      var k :| k in left;
      var inner: Maybe<map<string, T>> := Nothing;
      if IsMap(v.rec[k]) {
        inner := LoadEntries(v.rec[k].rec, load);
      }
      if inner.Nothing? {
        LoadsMapOnce<map<string, T>>(v.rec, loadInner, Nothing);
        return Nothing;
      }
      out := out[k := inner.value];
      left := left - {k};
    }
    LoadsMapOnce(v.rec, loadInner, Just(out));
    return Just(out);
  }

  method LoadProviders(rec: map<string, Value>, key: string) returns (r: Maybe<Providers>)
    ensures r == SectionAt(rec, key, ProvidersFrom)
  {
    r := Just(map[]);
    if key in rec {
      r := LoadStringListMap(rec[key]);
    }
  }

  method LoadSection<T>(
      rec: map<string, Value>, key: string, load: Value -> Maybe<T>, loadInner: Value -> Maybe<map<string, T>>,
      ghost loadAll: Value -> Maybe<map<string, map<string, T>>>)
    returns (r: Maybe<map<string, map<string, T>>>)
    requires forall w :: loadInner(w) == if IsMap(w) then LoadMap(w.rec, load) else Nothing
    requires forall w :: loadAll(w) == if IsMap(w) then LoadMap(w.rec, loadInner) else Nothing
    ensures r == SectionAt(rec, key, loadAll)
  {
    r := Just(map[]);
    if key in rec {
      r := LoadNested(rec[key], load, loadInner);
    }
  }

  method ManifestFromTable(rec: map<string, Value>) returns (r: Maybe<Manifest>)
    ensures r == ManifestFrom(rec)
  {
    var modules := LoadProviders(rec, "modules");
    if modules.Nothing? {
      return Nothing;
    }
    var commands := LoadProviders(rec, "commands");
    if commands.Nothing? {
      return Nothing;
    }
    var repository := LoadSection(rec, "repository", ArchEntryFrom, VersionsFrom, RepositoryFrom);
    if repository.Nothing? {
      return Nothing;
    }
    var dependencies := LoadSection(rec, "dependencies", DepListFrom, DepVersionsFrom, DependenciesFrom);
    if dependencies.Nothing? {
      return Nothing;
    }
    return Just(Manifest(repository.value, modules.value, commands.value, dependencies.value));
  }
}
