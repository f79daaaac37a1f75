/** Every run of installs and removes on one tree, each reading the manifest file the one
    before has written. */
module TreeRuns {
  import opened Text
  import opened LuaText
  import opened Rocks
  import opened Tables
  import opened ConstraintStore
  import opened ManifestStore
  import opened ManifestRoundTrip
  import opened ProviderLists
  import opened TreeIndex

  // ---- consistent manifests ------------------------------------------------

  /** The token names a version in the repository. */
  predicate Known(repository: map<string, map<string, RepoEntry>>, token: string) {
    var nv := Cut(token);
    nv.Just? && nv.value.0 in repository && nv.value.1 in repository[nv.value.0]
  }

  predicate GoodList(repository: map<string, map<string, RepoEntry>>, list: seq<string>) {
    && list != [] && Distinct(list)
    && (forall t :: t in list ==> Known(repository, t) && !HasNewline(t))
  }

  predicate GoodLists(repository: map<string, map<string, RepoEntry>>, index: Providers) {
    forall k :: k in index ==> GoodList(repository, index[k])
  }

  /** Two tables list the same names and versions, and every name has a version. */
  predicate SameVersions<T, U>(a: map<string, map<string, T>>, b: map<string, map<string, U>>) {
    a.Keys == b.Keys && forall n :: n in a ==> a[n].Keys != {} && a[n].Keys == b[n].Keys
  }

  predicate Row<T>(versions: map<string, T>, ok: T -> bool) {
    forall v :: v in versions ==> NoReturn(v) && ok(versions[v])
  }

  /** Every row of a table is fit for the file. */
  predicate Rows<T>(m: map<string, map<string, T>>, ok: T -> bool) {
    forall n :: n in m ==> NoReturn(n) && Row(m[n], ok)
  }

  predicate GoodEntry(e: RepoEntry) {
    CleanEntry(e) && e.arch == "installed"
  }

  predicate GoodDeps(ds: seq<Dep>) {
    StorableDeps(ds) && CleanDeps(ds)
  }

  predicate GoodTables(m: Manifest) {
    && SameVersions(m.repository, m.dependencies)
    && Rows(m.repository, GoodEntry) && Rows(m.dependencies, GoodDeps)
  }

  predicate GoodIndexes(m: Manifest) {
    && GoodLists(m.repository, m.modules) && GoodLists(m.repository, m.commands)
    && CleanKeys(m.modules) && CleanKeys(m.commands)
  }

  /** The indexes and the tables of the manifest fit together and fit the file. */
  predicate Good(m: Manifest) {
    GoodTables(m) && GoodIndexes(m)
  }

  lemma {:induction false} GoodIsClean(m: Manifest)
    requires Good(m)
    ensures CleanManifest(m)
  {
    forall n | n in m.repository ensures CleanVersions(m.repository[n]) {
    }
    forall n | n in m.dependencies ensures CleanDepVersions(m.dependencies[n]) && StorableVersions(m.dependencies[n]) {
    }
  }

  lemma {:induction false} GoodIsLoadable(m: Manifest)
    requires Good(m)
    ensures Loadable(m) && PlainTokens(m.modules) && PlainTokens(m.commands)
  {
    forall k | k in m.modules ensures PlainList(m.modules[k]) {
      assert forall i :: 0 <= i < |m.modules[k]| ==> m.modules[k][i] in m.modules[k];
    }
    forall k | k in m.commands ensures PlainList(m.commands[k]) {
      assert forall i :: 0 <= i < |m.commands[k]| ==> m.commands[k][i] in m.commands[k];
    }
  }

  // ---- installing ----------------------------------------------------------

  /** Rock names without slashes, and no line ends where the file has no room for them. */
  predicate CleanDeployment(d: Deployment) {
    && '/' !in d.package && !HasNewline(d.package) && !HasNewline(d.version)
    && NoReturns(d.modules) && NoReturns(d.commands)
    && StorableDeps(d.dependencies) && CleanDeps(d.dependencies)
  }

  lemma {:induction false} OwnTokenKnown(m: Manifest, d: Deployment)
    requires CleanDeployment(d)
    ensures var t := Token(d.package, d.version);
      Known(Deployed(m, d).repository, t) && !HasNewline(t)
  {
    CutToken(d.package, d.version);
  }

  lemma {:induction false} StillKnown(m: Manifest, d: Deployment, t: string)
    requires Known(m.repository, t)
    ensures Known(Deployed(m, d).repository, t)
  {
  }

  lemma {:induction false} UpsertedLists(m: Manifest, d: Deployment, index: Providers, items: set<string>)
    requires CleanDeployment(d) && GoodLists(m.repository, index)
    ensures GoodLists(Deployed(m, d).repository, UpsertAll(index, items, Token(d.package, d.version)))
  {
    var token, out := Token(d.package, d.version), UpsertAll(index, items, Token(d.package, d.version));
    OwnTokenKnown(m, d);
    forall k | k in out ensures GoodList(Deployed(m, d).repository, out[k]) {
      var list := ListAt(index, k);
      if k in items { UpsertDistinct(list, token, true); }
      forall t | t in list ensures Known(Deployed(m, d).repository, t) {
        StillKnown(m, d, t);
      }
    }
  }

  lemma {:induction false} SetSame<T, U>(a: map<string, map<string, T>>, b: map<string, map<string, U>>,
                                         name: string, v: string, x: T, y: U)
    requires SameVersions(a, b)
    ensures SameVersions(SetVersion(a, name, v, x), SetVersion(b, name, v, y))
  {
    var r := SetVersion(a, name, v, x);
    forall n | n in r ensures r[n].Keys != {} && r[n].Keys == SetVersion(b, name, v, y)[n].Keys {
      if n == name { assert v in r[n]; }
    }
  }

  lemma {:induction false} SetRows<T>(m: map<string, map<string, T>>, ok: T -> bool, name: string, v: string, x: T)
    requires Rows(m, ok) && NoReturn(name) && NoReturn(v) && ok(x)
    ensures Rows(SetVersion(m, name, v, x), ok)
  {
    assert Row(VersionsAt(m, name), ok);
    assert Row(VersionsAt(m, name)[v := x], ok);
  }

  lemma {:induction false} HighestClean(repository: map<string, map<string, RepoEntry>>, n: string)
    requires Rows(repository, GoodEntry) && n in repository && repository[n] != map[]
    ensures NoReturn(n) && NoReturn(Highest(repository[n].Keys))
  {
    assert repository[n].Keys != {};
    assert Row(repository[n], GoodEntry);
  }

  lemma {:induction false} CleanInstalledDeps(package: string, deps: seq<Dep>,
                                              repository: map<string, map<string, RepoEntry>>)
    requires Rows(repository, GoodEntry)
    ensures NoReturns(InstalledDeps(package, deps, repository))
  {
    var found := InstalledDeps(package, deps, repository);
    forall n | n in found ensures NoReturn(n) && NoReturn(found[n]) {
      HighestClean(repository, n);
    }
  }

  lemma {:induction false} InstalledIsGood(e: RepoEntry)
    requires e.arch == "installed" && NoReturns(e.modules) && NoReturns(e.commands) && NoReturns(e.dependencies)
    ensures GoodEntry(e)
  {
    assert forall i :: 0 <= i < |"installed"| ==> "installed"[i] != '\r';
  }

  lemma {:induction false} GoodInstalledDeps(m: Manifest, d: Deployment)
    requires GoodTables(m) && CleanDeployment(d)
    ensures GoodEntry(EntryOf(m, d))
  {
    CleanInstalledDeps(d.package, d.dependencies, m.repository);
    InstalledIsGood(EntryOf(m, d));
  }

  lemma {:induction false} DeployedTables(m: Manifest, d: Deployment)
    requires GoodTables(m) && CleanDeployment(d)
    ensures GoodTables(Deployed(m, d))
  {
    GoodInstalledDeps(m, d);
    SetSame(m.repository, m.dependencies, d.package, d.version, EntryOf(m, d), d.dependencies);
    SetRows(m.repository, GoodEntry, d.package, d.version, EntryOf(m, d));
    SetRows(m.dependencies, GoodDeps, d.package, d.version, d.dependencies);
  }

  lemma {:induction false} DeployedGood(m: Manifest, d: Deployment)
    requires Good(m) && CleanDeployment(d)
    ensures Good(Deployed(m, d))
  {
    UpsertedLists(m, d, m.modules, d.modules.Keys);
    UpsertedLists(m, d, m.commands, d.commands.Keys);
    DeployedTables(m, d);
  }

  // ---- removing ------------------------------------------------------------

  /** Tokens that were not dropped name versions that were not removed. */
  lemma {:induction false} KeptKnown(m: Manifest, name: string, versions: set<string>, t: string)
    requires Known(m.repository, t) && t !in Tokens(name, versions)
    ensures Known(Removed(m, name, versions).repository, t)
  {
    var nv := Cut(t).value;
    if nv.0 == name {
      assert t == Token(name, nv.1) && nv.1 !in versions;
      assert nv.1 in m.repository[name] - versions;
    }
  }

  lemma {:induction false} DroppedLists(m: Manifest, name: string, versions: set<string>, index: Providers)
    requires GoodLists(m.repository, index)
    ensures GoodLists(Removed(m, name, versions).repository, Dropped(index, Tokens(name, versions)))
  {
    var drop := Tokens(name, versions);
    var out := Dropped(index, drop);
    forall k | k in out ensures GoodList(Removed(m, name, versions).repository, out[k]) {
      WithoutDistinct(index[k], drop);
      forall t | t in out[k] ensures Known(Removed(m, name, versions).repository, t) && !HasNewline(t) {
        KeptKnown(m, name, versions, t);
      }
    }
  }

  lemma {:induction false} ClearSame<T, U>(a: map<string, map<string, T>>, b: map<string, map<string, U>>,
                                           name: string, versions: set<string>)
    requires SameVersions(a, b)
    ensures
      var x, y := ClearVersions(a, name, versions), ClearVersions(b, name, versions);
      if VersionsAt(x, name) == map[] then SameVersions(x - {name}, y - {name}) else SameVersions(x, y)
  {
    if name in a {
      assert (a[name] - versions).Keys == (b[name] - versions).Keys;
      assert a[name] - versions == map[] <==> (a[name] - versions).Keys == {};
    }
  }

  lemma {:induction false} ClearRows<T>(m: map<string, map<string, T>>, ok: T -> bool, name: string, versions: set<string>)
    requires Rows(m, ok)
    ensures Rows(ClearVersions(m, name, versions), ok) && Rows(ClearVersions(m, name, versions) - {name}, ok)
  {
    if name in m {
      assert Row(m[name], ok);
      assert Row(m[name] - versions, ok);
    }
  }

  lemma {:induction false} RemovedTables(m: Manifest, name: string, versions: set<string>)
    requires GoodTables(m)
    ensures GoodTables(Removed(m, name, versions))
  {
    ClearSame(m.repository, m.dependencies, name, versions);
    ClearRows(m.repository, GoodEntry, name, versions);
    ClearRows(m.dependencies, GoodDeps, name, versions);
  }

  lemma {:induction false} RemovedGood(m: Manifest, name: string, versions: set<string>)
    requires Good(m)
    ensures Good(Removed(m, name, versions))
  {
    DroppedLists(m, name, versions, m.modules);
    DroppedLists(m, name, versions, m.commands);
    RemovedTables(m, name, versions);
  }

  // ---- the manifest file ---------------------------------------------------

  lemma {:induction false} InstalledIsStored(repository: map<string, map<string, RepoEntry>>)
    requires Rows(repository, GoodEntry)
    ensures MapValues(repository, StoredVersions) == repository
  {
    forall n | n in repository ensures StoredVersions(repository[n]) == repository[n] {
      assert Row(repository[n], GoodEntry);
    }
  }

  function StoredTable(dependencies: map<string, map<string, seq<Dep>>>): map<string, map<string, seq<Dep>>> {
    MapValues(dependencies, StoredDepVersions)
  }

  /** Reading the written manifest gives the same modules, commands and repository, and
      the same dependencies but for what constraints lose. */
  lemma {:induction false} GoodFileBack(m: Manifest)
    requires Good(m)
    ensures Storable(m) && ReadTree(TreeFile(m)) == Just(m.(dependencies := StoredTable(m.dependencies)))
  {
    GoodIsClean(m);
    GoodIsLoadable(m);
    TreeFileBack(m);
    InstalledIsStored(m.repository);
  }

  lemma {:induction false} StoredDepsStay(ds: seq<Dep>)
    requires GoodDeps(ds)
    ensures GoodDeps(StoredDeps(ds))
  {
    var r := StoredDeps(ds);
    forall i | 0 <= i < |r| ensures StorableDep(r[i]) && CleanDep(r[i]) {
      var cs := ds[i].constraints;
      assert r[i].constraints == MapSeq(cs, StoredConstraint);
      forall j | 0 <= j < |cs|
        ensures StorableConstraint(StoredConstraint(cs[j])) && NoReturn(cs[j].op) && NoReturn(cs[j].version.raw)
      {
      }
    }
  }

  lemma {:induction false} StoredTableStays(dependencies: map<string, map<string, seq<Dep>>>)
    requires Rows(dependencies, GoodDeps)
    ensures Rows(StoredTable(dependencies), GoodDeps)
    ensures StoredTable(dependencies).Keys == dependencies.Keys
    ensures forall n :: n in dependencies ==> StoredTable(dependencies)[n].Keys == dependencies[n].Keys
  {
    var r := StoredTable(dependencies);
    forall n | n in r ensures NoReturn(n) && Row(r[n], GoodDeps) {
      assert Row(dependencies[n], GoodDeps);
      forall v | v in r[n] ensures NoReturn(v) && GoodDeps(r[n][v]) {
        StoredDepsStay(dependencies[n][v]);
      }
    }
  }

  lemma {:induction false} StoredGood(m: Manifest)
    requires Good(m)
    ensures Good(m.(dependencies := StoredTable(m.dependencies)))
  {
    StoredTableStays(m.dependencies);
  }

  // ---- runs ----------------------------------------------------------------

  datatype Op = Install(d: Deployment) | Remove(name: string, version: string)

  predicate CleanOp(op: Op) {
    op.Install? ==> CleanDeployment(op.d)
  }

  /** The manifest that an operation makes of the one it has read; Nothing when it fails
      and leaves the file alone. */
  function Applied(m: Manifest, op: Op): Maybe<Manifest> {
    match op
    case Install(d) => Just(Deployed(m, d))
    case Remove(name, version) =>
      var versions := ToRemove(m, name, version);
      if versions.Nothing? then Nothing else Just(Removed(m, name, versions.value))
  }

  lemma {:induction false} AppliedGood(m: Manifest, op: Op)
    requires Good(m) && CleanOp(op)
    ensures Applied(m, op).Just? ==> Good(Applied(m, op).value)
  {
    match op
    case Install(d) => DeployedGood(m, d);
    case Remove(name, version) =>
      if ToRemove(m, name, version).Just? { RemovedGood(m, name, ToRemove(m, name, version).value); }
  }

  /** readTreeManifest: no file is the empty manifest. */
  function Loaded(file: Maybe<string>): Maybe<Manifest> {
    if file.Nothing? then Just(EMPTY_MANIFEST) else ReadTree(file.value)
  }

  /** The file holds a consistent manifest. */
  ghost predicate Intact(file: Maybe<string>) {
    Loaded(file).Just? && Good(Loaded(file).value)
  }

  /** The file one operation leaves behind. */
  function Step(file: Maybe<string>, op: Op): Maybe<string>
    requires Intact(file) && CleanOp(op)
  {
    var m := Loaded(file).value;
    AppliedGood(m, op);
    if Applied(m, op).Nothing? then file else
      GoodFileBack(Applied(m, op).value);
      Just(TreeFile(Applied(m, op).value))
  }

  /** What the operation behind op reads, when op has read m. */
  function ReadNext(m: Manifest, op: Op): Manifest {
    var r := Applied(m, op);
    if r.Nothing? then m else r.value.(dependencies := StoredTable(r.value.dependencies))
  }

  lemma GoodTextIntact(text: string, m: Manifest)
    requires ReadTree(text) == Just(m) && Good(m)
    ensures Intact(Just(text)) && Loaded(Just(text)) == Just(m)
  {
  }

  /** The file of a good manifest is intact, and holds it up to what constraints lose. */
  lemma {:induction false} WrittenIntact(m: Manifest)
    requires Good(m)
    ensures Storable(m) && Intact(Just(TreeFile(m)))
    ensures Loaded(Just(TreeFile(m))) == Just(m.(dependencies := StoredTable(m.dependencies)))
  {
    GoodFileBack(m);
    StoredGood(m);
    GoodTextIntact(TreeFile(m), m.(dependencies := StoredTable(m.dependencies)));
  }

  /** A failed operation leaves the file, another writes its manifest. */
  lemma {:induction false} StepWrites(file: Maybe<string>, op: Op)
    requires Intact(file) && CleanOp(op)
    ensures
      var r := Applied(Loaded(file).value, op);
      if r.Nothing? then Step(file, op) == file
      else Good(r.value) && Storable(r.value) && Step(file, op) == Just(TreeFile(r.value))
  {
    var r := Applied(Loaded(file).value, op);
    AppliedGood(Loaded(file).value, op);
    if r.Just? { GoodFileBack(r.value); }
  }

  lemma {:induction false} StepIntact(file: Maybe<string>, op: Op)
    requires Intact(file) && CleanOp(op)
    ensures Intact(Step(file, op))
    ensures Loaded(Step(file, op)) == Just(ReadNext(Loaded(file).value, op))
  {
    var r := Applied(Loaded(file).value, op);
    StepWrites(file, op);
    if r.Just? {
      WrittenIntact(r.value);
    }
  }

  /** The manifest file after a run, starting without one.  It can always be read; no
      provider list is empty or has a duplicate, every token names an installed version,
      and the dependency table lists exactly the installed versions. */
  ghost function AfterRun(ops: seq<Op>): (file: Maybe<string>)
    requires forall i :: 0 <= i < |ops| ==> CleanOp(ops[i])
    ensures Loaded(file).Just? && Good(Loaded(file).value)
  {
    if ops == [] then Nothing else
      var file := AfterRun(ops[..|ops| - 1]);
      StepIntact(file, ops[|ops| - 1]);
      Step(file, ops[|ops| - 1])
  }

  /** A found provider is installed; none found means that the index has no list. */
  ghost predicate FoundInstalled(m: Manifest, found: Maybe<(string, string)>, listed: bool) {
    if found.Nothing? then !listed
    else found.value.0 in m.repository && found.value.1 in m.repository[found.value.0]
  }

  lemma {:induction false} HeadInstalled(m: Manifest, index: Providers, item: string)
    requires GoodLists(m.repository, index)
    ensures FoundInstalled(m, HeadOf(index, item), item in index)
  {
    if item in index {
      assert GoodList(m.repository, index[item]);
      assert index[item][0] in index[item];
    }
  }

  /** The active provider that a deployment is told is installed, and none is missed. */
  lemma {:induction false} ActiveIsInstalled(m: Manifest, item: string)
    requires GoodIndexes(m)
    ensures FoundInstalled(m, ManifestProvider(m, item), item in m.modules || item in m.commands)
  {
    HeadInstalled(m, m.modules, item);
    HeadInstalled(m, m.commands, item);
  }

  lemma {:induction false} RunStep(ops: seq<Op>, op: Op)
    requires (forall i :: 0 <= i < |ops| ==> CleanOp(ops[i])) && CleanOp(op)
    ensures forall i :: 0 <= i < |ops + [op]| ==> CleanOp((ops + [op])[i])
    ensures Intact(AfterRun(ops)) && AfterRun(ops + [op]) == Step(AfterRun(ops), op)
  {
    var all := ops + [op];
    assert all[..|all| - 1] == ops && all[|all| - 1] == op;
  }

  /** An operation that succeeds changes what the next one reads to exactly what it made
      of the manifest, up to what constraints lose; one that fails changes nothing. */
  lemma {:induction false} NextRead(ops: seq<Op>, op: Op)
    requires (forall i :: 0 <= i < |ops| ==> CleanOp(ops[i])) && CleanOp(op)
    ensures forall i :: 0 <= i < |ops + [op]| ==> CleanOp((ops + [op])[i])
    ensures Loaded(AfterRun(ops + [op])) == Just(ReadNext(Loaded(AfterRun(ops)).value, op))
  {
    RunStep(ops, op);
    var file := AfterRun(ops);
    StepIntact(file, op);
  }

  lemma {:induction false} TablesUndone(m: Manifest, d: Deployment, e: RepoEntry)
    requires GoodTables(m) && d.version !in VersionsAt(m.repository, d.package)
    ensures
      var a := ClearVersions(SetVersion(m.repository, d.package, d.version, e), d.package, {d.version});
      var b := ClearVersions(SetVersion(m.dependencies, d.package, d.version, d.dependencies), d.package, {d.version});
      if VersionsAt(a, d.package) == map[] then a - {d.package} == m.repository && b - {d.package} == m.dependencies
      else a == m.repository && b == m.dependencies
  {
    var versions, deps := VersionsAt(m.repository, d.package), VersionsAt(m.dependencies, d.package);
    assert versions.Keys == deps.Keys;
    assert versions == map[] <==> versions.Keys == {};
    assert deps == map[] <==> deps.Keys == {};
    VersionUndone(m.repository, d.package, d.version, e);
    VersionUndone(m.dependencies, d.package, d.version, d.dependencies);
  }

  lemma {:induction false} IndexesUndone(m: Manifest, d: Deployment)
    requires GoodIndexes(m) && CleanDeployment(d) && d.version !in VersionsAt(m.repository, d.package)
    ensures
      var r, drop := Deployed(m, d), Tokens(d.package, {d.version});
      Dropped(r.modules, drop) == m.modules && Dropped(r.commands, drop) == m.commands
  {
    var token := Token(d.package, d.version);
    CutToken(d.package, d.version);
    assert Tokens(d.package, {d.version}) == {token};
    UpsertDropped(m.repository, m.modules, d.modules.Keys, token);
    UpsertDropped(m.repository, m.commands, d.commands.Keys, token);
  }

  /** Removing what was just installed for the first time gives the manifest of before. */
  lemma {:induction false} RemoveUndoesInstall(m: Manifest, d: Deployment)
    requires Good(m) && CleanDeployment(d) && d.version !in VersionsAt(m.repository, d.package)
    ensures Removed(Deployed(m, d), d.package, {d.version}) == m
  {
    IndexesUndone(m, d);
    TablesUndone(m, d, EntryOf(m, d));
  }

  lemma {:induction false} VersionUndone<T>(m: map<string, map<string, T>>, name: string, v: string, x: T)
    requires v !in VersionsAt(m, name) && (name in m ==> m[name] != map[])
    ensures var r := ClearVersions(SetVersion(m, name, v, x), name, {v});
      && VersionsAt(r, name) == VersionsAt(m, name)
      && (if VersionsAt(r, name) == map[] then r - {name} else r) == m
  {
    assert VersionsAt(m, name)[v := x] - {v} == VersionsAt(m, name);
  }

  lemma {:induction false} WithoutAbsent(list: seq<string>, token: string)
    requires token !in list
    ensures Without(list, {token}) == list
  {
    if list != [] {
      assert list[|list| - 1] in list;
      WithoutAbsent(list[..|list| - 1], token);
    }
  }

  lemma {:induction false} WithoutHead(list: seq<string>, token: string)
    requires token !in list
    ensures Without([token] + list, {token}) == list
  {
    if list != [] {
      assert ([token] + list)[..|list|] == [token] + list[..|list| - 1];
      assert list[|list| - 1] in list;
      WithoutHead(list[..|list| - 1], token);
    } else {
      assert [token] + list == [token] && [token][..0] == [];
    }
  }

  lemma {:induction false} UpsertedDropped(list: seq<string>, token: string)
    requires token !in list
    ensures Without(Upsert(list, token, true), {token}) == list
    ensures Without(list, {token}) == list
  {
    WithoutAbsent(list, token);
    WithoutHead(list, token);
  }

  lemma {:induction false} UpsertDropped(repository: map<string, map<string, RepoEntry>>, index: Providers,
                                         items: set<string>, token: string)
    requires GoodLists(repository, index) && !Known(repository, token)
    ensures Dropped(UpsertAll(index, items, token), {token}) == index
  {
    var out := UpsertAll(index, items, token);
    forall k | k in out ensures Without(out[k], {token}) == ListAt(index, k) {
      assert k in index ==> GoodList(repository, index[k]);
      UpsertedDropped(ListAt(index, k), token);
    }
    forall k | k in index ensures ListAt(index, k) != [] {
      assert GoodList(repository, index[k]);
    }
    SameProviders(Dropped(out, {token}), index);
  }

  lemma SameProviders(a: Providers, b: Providers)
    requires forall k :: k in a <==> k in b
    requires forall k :: k in a ==> a[k] == b[k]
    ensures a == b
  {
  }
}
