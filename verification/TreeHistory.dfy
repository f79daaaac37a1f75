/** The tree manifest after a run, told from the operations alone: which versions it
    lists, with what, and which rocks provide a module or a command. */
module TreeHistory {
  import opened Text
  import opened Rocks
  import opened Constraints
  import opened ConstraintStore
  import opened ProviderLists
  import opened TreeIndex
  import opened TreeRuns

  // ---- what the operations say -----------------------------------------------

  predicate IsInstallOf(op: Op, name: string, version: string) {
    op.Install? && op.d.package == name && op.d.version == version
  }

  predicate IsRemoveOf(op: Op, name: string, version: string) {
    op.Remove? && op.name == name && (op.version == "" || op.version == version)
  }

  /** What was last deployed of a version that has not been removed since. */
  function Standing(ops: seq<Op>, name: string, version: string): Maybe<Deployment> {
    if ops == [] then Nothing
    else
      var op := ops[|ops| - 1];
      if IsInstallOf(op, name, version) then Just(op.d)
      else if IsRemoveOf(op, name, version) then Nothing
      else Standing(ops[..|ops| - 1], name, version)
  }

  /** The version was deployed with the module, or with the command, and has not been
      removed since. */
  predicate Provided(ops: seq<Op>, command: bool, item: string, name: string, version: string) {
    ops != []
    && var op := ops[|ops| - 1];
       if IsInstallOf(op, name, version) && item in ItemsIn(op.d, command) then true
       else !IsRemoveOf(op, name, version) && Provided(ops[..|ops| - 1], command, item, name, version)
  }

  function ItemsIn(d: Deployment, command: bool): map<string, string> {
    if command then d.commands else d.modules
  }

  predicate CleanRun(ops: seq<Op>) {
    forall i :: 0 <= i < |ops| ==> CleanOp(ops[i])
  }

  /** The manifest that is read after the run. */
  ghost function TreeOf(ops: seq<Op>): (m: Manifest)
    requires CleanRun(ops)
    ensures Good(m)
  {
    Loaded(AfterRun(ops)).value
  }

  lemma {:induction false} TreeNext(ops: seq<Op>, op: Op)
    requires CleanRun(ops) && CleanOp(op)
    ensures CleanRun(ops + [op]) && TreeOf(ops + [op]) == ReadNext(TreeOf(ops), op)
  {
    NextRead(ops, op);
  }

  lemma TreeStart()
    ensures TreeOf([]) == EMPTY_MANIFEST
  {
  }

  // ---- what one operation does -----------------------------------------------

  function EntryAt(m: Manifest, name: string, version: string): Maybe<RepoEntry> {
    if name in m.repository && version in m.repository[name] then Just(m.repository[name][version]) else Nothing
  }

  function IndexOf(m: Manifest, command: bool): Providers {
    if command then m.commands else m.modules
  }

  predicate Lists(m: Manifest, command: bool, item: string, token: string) {
    item in IndexOf(m, command) && token in IndexOf(m, command)[item]
  }

  /** An entry records the files and commands of a deployment. */
  predicate Records(e: RepoEntry, d: Deployment) {
    e.arch == "installed" && e.modules == d.modules && e.commands == d.commands
  }

  lemma {:induction false} EntryAfterInstall(m: Manifest, d: Deployment, name: string, version: string)
    ensures
      var r, own := EntryAt(ReadNext(m, Install(d)), name, version), d.package == name && d.version == version;
      if own then r.Just? && Records(r.value, d) else r == EntryAt(m, name, version)
  {
  }

  lemma {:induction false} EntryRemoved(m: Manifest, name: string, versions: set<string>, n: string, v: string)
    ensures
      EntryAt(Removed(m, name, versions), n, v) == if n == name && v in versions then Nothing else EntryAt(m, n, v)
  {
    var cleared := Cleared(m, name, versions);
    if n == name && name in m.repository {
      var left := m.repository[name] - versions;
      assert VersionsAt(cleared.repository, name) == left;
      assert v in left <==> v in m.repository[name] && v !in versions;
    }
  }

  lemma {:induction false} EntryAfterRemove(m: Manifest, name: string, version: string, n: string, v: string)
    ensures
      EntryAt(ReadNext(m, Remove(name, version)), n, v)
      == if IsRemoveOf(Remove(name, version), n, v) then Nothing else EntryAt(m, n, v)
  {
    var versions := ToRemove(m, name, version);
    if versions.Just? {
      EntryRemoved(m, name, versions.value, n, v);
    }
  }

  /** An entry is changed by the operations on its version alone. */
  lemma {:induction false} EntryAfter(m: Manifest, op: Op, name: string, version: string)
    ensures
      var r := EntryAt(ReadNext(m, op), name, version);
      if IsInstallOf(op, name, version) then r.Just? && Records(r.value, op.d)
      else r == if IsRemoveOf(op, name, version) then Nothing else EntryAt(m, name, version)
  {
    match op
    case Install(d) => EntryAfterInstall(m, d, name, version);
    case Remove(n, v) => EntryAfterRemove(m, n, v, name, version);
  }

  /** The versions in the manifest after a run are those whose last operation was an
      install, each with the modules and commands of that install. */
  lemma {:induction false} RunRecords(ops: seq<Op>, name: string, version: string)
    requires CleanRun(ops)
    ensures
      var r, d := EntryAt(TreeOf(ops), name, version), Standing(ops, name, version);
      (r.Just? <==> d.Just?) && (r.Just? ==> Records(r.value, d.value))
  {
    if ops != [] {
      var n := |ops| - 1;
      var init, op := ops[..n], ops[n];
      assert ops == init + [op];
      RunRecords(init, name, version);
      TreeNext(init, op);
      EntryAfter(TreeOf(init), op, name, version);
    }
  }

  // ---- the indexes -----------------------------------------------------------

  lemma SameToken(name: string, version: string, n: string, v: string)
    requires '/' !in name && '/' !in n
    ensures Token(name, version) == Token(n, v) <==> name == n && version == v
  {
    CutToken(name, version);
    CutToken(n, v);
  }

  lemma {:induction false} ListedAfterUpsert(index: Providers, items: set<string>, token: string, item: string, t: string)
    ensures
      var r := UpsertAll(index, items, token);
      item in r && t in r[item] <==> (item in items && t == token) || (item in index && t in index[item])
  {
  }

  lemma {:induction false} ListedAfterDrop(index: Providers, drop: set<string>, item: string, t: string)
    ensures
      var r := Dropped(index, drop);
      item in r && t in r[item] <==> item in index && t in index[item] && t !in drop
  {
  }

  lemma {:induction false} ListedAfterInstall(m: Manifest, d: Deployment, command: bool, item: string, name: string,
                                              version: string)
    requires '/' !in d.package && '/' !in name
    ensures
      Lists(ReadNext(m, Install(d)), command, item, Token(name, version)) <==>
        || (IsInstallOf(Install(d), name, version) && item in ItemsIn(d, command))
        || Lists(m, command, item, Token(name, version))
  {
    SameToken(d.package, d.version, name, version);
    ListedAfterUpsert(IndexOf(m, command), ItemsIn(d, command).Keys, Token(d.package, d.version), item,
                      Token(name, version));
  }

  /** Of the installed versions an operation removes those it names. */
  lemma {:induction false} RemoveTakes(m: Manifest, name: string, version: string, n: string, v: string)
    requires EntryAt(m, n, v).Just?
    ensures
      var versions := ToRemove(m, name, version);
      versions.Just? && n == name && v in versions.value <==> IsRemoveOf(Remove(name, version), n, v)
  {
  }

  lemma {:induction false} ListedAfterClear(m: Manifest, name: string, versions: set<string>, command: bool,
                                            item: string, t: string)
    ensures
      Lists(Removed(m, name, versions), command, item, t) <==> Lists(m, command, item, t) && t !in Tokens(name, versions)
  {
    ListedAfterDrop(IndexOf(m, command), Tokens(name, versions), item, t);
  }

  lemma RemoveGives(m: Manifest, name: string, version: string, command: bool)
    ensures
      var versions := ToRemove(m, name, version);
      IndexOf(ReadNext(m, Remove(name, version)), command)
      == if versions.Nothing? then IndexOf(m, command) else IndexOf(Removed(m, name, versions.value), command)
  {
  }

  lemma {:induction false} ListedAfterRemove(m: Manifest, name: string, version: string, command: bool, item: string,
                                             n: string, v: string)
    requires '/' !in n && (name in m.repository ==> '/' !in name)
    requires Lists(m, command, item, Token(n, v)) ==> EntryAt(m, n, v).Just?
    ensures
      Lists(ReadNext(m, Remove(name, version)), command, item, Token(n, v)) <==>
        !IsRemoveOf(Remove(name, version), n, v) && Lists(m, command, item, Token(n, v))
  {
    RemoveGives(m, name, version, command);
    if Lists(m, command, item, Token(n, v)) { RemoveTakes(m, name, version, n, v); }
    var versions := ToRemove(m, name, version);
    if versions.Just? {
      TokenDropped(name, versions.value, n, v);
      ListedAfterClear(m, name, versions.value, command, item, Token(n, v));
    }
  }

  lemma {:induction false} TokenDropped(name: string, versions: set<string>, n: string, v: string)
    requires '/' !in n && '/' !in name
    ensures Token(n, v) in Tokens(name, versions) <==> n == name && v in versions
  {
    forall u | u in versions ensures Token(n, v) == Token(name, u) <==> n == name && v == u {
      SameToken(n, v, name, u);
    }
  }

  /** What an index lists is installed. */
  lemma {:induction false} ListedIsInstalled(m: Manifest, command: bool, item: string, n: string, v: string)
    requires Good(m) && '/' !in n && Lists(m, command, item, Token(n, v))
    ensures EntryAt(m, n, v).Just?
  {
    CutToken(n, v);
    assert GoodList(m.repository, IndexOf(m, command)[item]);
    assert Known(m.repository, Token(n, v));
  }

  lemma {:induction false} NamesArePlain(ops: seq<Op>, name: string)
    requires CleanRun(ops) && name in TreeOf(ops).repository
    ensures '/' !in name
  {
    var m := TreeOf(ops);
    assert m.repository[name].Keys != {};
    var v :| v in m.repository[name];
    RunRecords(ops, name, v);
    StandingClean(ops, name, v);
  }

  lemma {:induction false} StandingClean(ops: seq<Op>, name: string, version: string)
    requires CleanRun(ops) && Standing(ops, name, version).Just?
    ensures '/' !in name
  {
    var op := ops[|ops| - 1];
    if !IsInstallOf(op, name, version) { StandingClean(ops[..|ops| - 1], name, version); }
  }

  lemma {:induction false} ListedAfter(ops: seq<Op>, op: Op, command: bool, item: string, name: string, version: string)
    requires CleanRun(ops) && CleanOp(op) && '/' !in name
    ensures
      var m := TreeOf(ops);
      Lists(ReadNext(m, op), command, item, Token(name, version)) <==>
        || (IsInstallOf(op, name, version) && item in ItemsIn(op.d, command))
        || (!IsRemoveOf(op, name, version) && Lists(m, command, item, Token(name, version)))
  {
    var m := TreeOf(ops);
    match op
    case Install(d) => ListedAfterInstall(m, d, command, item, name, version);
    case Remove(n, v) =>
      if n in m.repository { NamesArePlain(ops, n); }
      if Lists(m, command, item, Token(name, version)) { ListedIsInstalled(m, command, item, name, version); }
      ListedAfterRemove(m, n, v, command, item, name, version);
  }

  /** The providers of a module or command after a run are the versions that were deployed
      with it and have not been removed since. */
  lemma {:induction false} RunProvides(ops: seq<Op>, command: bool, item: string, name: string, version: string)
    requires CleanRun(ops) && '/' !in name
    ensures
      Lists(TreeOf(ops), command, item, Token(name, version))
      <==> Provided(ops, command, item, name, version)
  {
    if ops != [] {
      var n := |ops| - 1;
      var init, op := ops[..n], ops[n];
      assert ops == init + [op];
      RunProvides(init, command, item, name, version);
      TreeNext(init, op);
      ListedAfter(init, op, command, item, name, version);
    }
  }

  lemma {:induction false} StandingProvides(ops: seq<Op>, command: bool, item: string, name: string, version: string)
    requires Standing(ops, name, version).Just? && item in ItemsIn(Standing(ops, name, version).value, command)
    ensures Provided(ops, command, item, name, version)
  {
    var op := ops[|ops| - 1];
    if !IsInstallOf(op, name, version) {
      StandingProvides(ops[..|ops| - 1], command, item, name, version);
    }
  }

  /** Whatever an entry records, the index lists the version for. */
  lemma {:induction false} EntriesAreListed(ops: seq<Op>, name: string, version: string, command: bool, item: string)
    requires CleanRun(ops)
    requires
      var e := EntryAt(TreeOf(ops), name, version);
      e.Just? && item in if command then e.value.commands else e.value.modules
    ensures Lists(TreeOf(ops), command, item, Token(name, version))
  {
    RunRecords(ops, name, version);
    StandingClean(ops, name, version);
    StandingProvides(ops, command, item, name, version);
    RunProvides(ops, command, item, name, version);
  }

  // ---- recorded dependencies -------------------------------------------------

  predicate Declares(d: Deployment, name: string) {
    exists i :: 0 <= i < |d.dependencies| && d.dependencies[i].name == name
  }

  /** Some version of the rock stands after the run. */
  ghost predicate Stands(ops: seq<Op>, name: string) {
    exists v :: Standing(ops, name, v).Just?
  }

  /** Of each other rock that d declares and that stands, the highest version as strings
      compare, and of no other rock. */
  ghost predicate HighestStanding(ops: seq<Op>, d: Deployment, found: map<string, string>) {
    && (forall n :: n in found <==> n != d.package && Declares(d, n) && Stands(ops, n))
    && (forall n :: n in found ==> Standing(ops, n, found[n]).Just?)
    && (forall n, v :: n in found && Standing(ops, n, v).Just? ==> v == found[n] || Less(v, found[n]))
  }

  lemma {:induction false} StandsIsInstalled(ops: seq<Op>, name: string)
    requires CleanRun(ops)
    ensures
      var repository := TreeOf(ops).repository;
      && (Stands(ops, name) <==> name in repository && repository[name] != map[])
      && forall v :: Standing(ops, name, v).Just? <==> name in repository && v in repository[name]
  {
    var repository := TreeOf(ops).repository;
    forall v ensures Standing(ops, name, v).Just? <==> name in repository && v in repository[name] {
      RunRecords(ops, name, v);
    }
    if name in repository && repository[name] != map[] {
      assert repository[name].Keys != {};
      var v :| v in repository[name];
      assert Standing(ops, name, v).Just?;
    }
  }

  lemma {:induction false} FoundIsHighest(ops: seq<Op>, d: Deployment)
    requires CleanRun(ops)
    ensures HighestStanding(ops, d, InstalledDeps(d.package, d.dependencies, TreeOf(ops).repository))
  {
    var repository := TreeOf(ops).repository;
    var found := InstalledDeps(d.package, d.dependencies, repository);
    forall n ensures n in found <==> n != d.package && Declares(d, n) && Stands(ops, n) {
      StandsIsInstalled(ops, n);
    }
    forall n | n in found ensures Standing(ops, n, found[n]).Just? {
      StandsIsInstalled(ops, n);
      assert repository[n].Keys != {};
    }
    forall n, v | n in found && Standing(ops, n, v).Just? ensures v == found[n] || Less(v, found[n]) {
      StandsIsInstalled(ops, n);
    }
  }

  lemma {:induction false} InstallFinds(m: Manifest, d: Deployment)
    ensures
      var e := EntryAt(ReadNext(m, Install(d)), d.package, d.version);
      e.Just? && e.value.dependencies == InstalledDeps(d.package, d.dependencies, m.repository)
  {
  }

  /** The rock stands at the head of the lists of these items. */
  predicate Leading(index: Providers, items: map<string, string>, token: string) {
    forall k :: k in items ==> k in index && index[k] != [] && index[k][0] == token
  }

  lemma {:induction false} InstallLeads(m: Manifest, d: Deployment, command: bool)
    ensures Leading(IndexOf(ReadNext(m, Install(d)), command), ItemsIn(d, command), Token(d.package, d.version))
  {
  }

  /** Right after an install its version is listed with what was deployed and with the
      versions found for its dependencies, and provides its modules and commands before
      all other rocks. */
  lemma {:induction false} InstallTells(ops: seq<Op>, d: Deployment)
    requires CleanRun(ops) && CleanOp(Install(d))
    ensures CleanRun(ops + [Install(d)])
    ensures
      var m := TreeOf(ops + [Install(d)]);
      var e := EntryAt(m, d.package, d.version);
      && e.Just? && Records(e.value, d) && HighestStanding(ops, d, e.value.dependencies)
      && Leading(m.modules, d.modules, Token(d.package, d.version))
      && Leading(m.commands, d.commands, Token(d.package, d.version))
  {
    TreeNext(ops, Install(d));
    EntryAfterInstall(TreeOf(ops), d, d.package, d.version);
    InstallFinds(TreeOf(ops), d);
    FoundIsHighest(ops, d);
    InstallLeads(TreeOf(ops), d, false);
    InstallLeads(TreeOf(ops), d, true);
  }

  ghost predicate RecordsVersion(ops: seq<Op>, name: string, version: string, n: string, v: string)
    requires CleanRun(ops)
  {
    var e := EntryAt(TreeOf(ops), name, version);
    e.Just? && n in e.value.dependencies && e.value.dependencies[n] == v
  }

  lemma {:induction false} RecordedBefore(ops: seq<Op>, op: Op, name: string, version: string, n: string, v: string)
    requires CleanRun(ops) && CleanOp(op) && CleanRun(ops + [op]) && RecordsVersion(ops + [op], name, version, n, v)
    ensures if IsInstallOf(op, name, version) then Standing(ops, n, v).Just? else RecordsVersion(ops, name, version, n, v)
  {
    TreeNext(ops, op);
    EntryAfter(TreeOf(ops), op, name, version);
    if IsInstallOf(op, name, version) {
      InstallFinds(TreeOf(ops), op.d);
      FoundIsHighest(ops, op.d);
    }
  }

  lemma {:induction false} NothingAtFirst(ops: seq<Op>, name: string, version: string, n: string, v: string)
    requires CleanRun(ops) && RecordsVersion(ops, name, version, n, v)
    ensures ops != []
  {
    if ops == [] { TreeStart(); }
  }

  ghost predicate Installed(ops: seq<Op>, name: string, version: string) {
    exists i :: 0 <= i < |ops| && IsInstallOf(ops[i], name, version)
  }

  lemma {:induction false} InstalledMore(init: seq<Op>, op: Op, name: string, version: string)
    requires Installed(init, name, version)
    ensures Installed(init + [op], name, version)
  {
    var i :| 0 <= i < |init| && IsInstallOf(init[i], name, version);
    assert (init + [op])[i] == init[i];
  }

  lemma {:induction false} LastOp(ops: seq<Op>) returns (init: seq<Op>, op: Op)
    requires CleanRun(ops) && ops != []
    ensures ops == init + [op] && CleanRun(init) && CleanOp(op)
  {
    init, op := ops[..|ops| - 1], ops[|ops| - 1];
  }

  lemma {:induction false} RecordedLast(ops: seq<Op>, name: string, version: string, n: string, v: string)
    returns (init: seq<Op>, op: Op)
    requires CleanRun(ops) && RecordsVersion(ops, name, version, n, v)
    ensures ops == init + [op] && CleanRun(init)
    ensures Standing(init, n, v).Just? || RecordsVersion(init, name, version, n, v)
  {
    NothingAtFirst(ops, name, version, n, v);
    init, op := LastOp(ops);
    RecordedBefore(init, op, name, version, n, v);
  }

  /** Every dependency that an entry records is a version that the run has installed. */
  lemma {:induction false} RecordedWasInstalled(ops: seq<Op>, name: string, version: string, n: string, v: string)
    requires CleanRun(ops) && RecordsVersion(ops, name, version, n, v)
    ensures Installed(ops, n, v)
    decreases |ops|
  {
    var init, op := RecordedLast(ops, name, version, n, v);
    if Standing(init, n, v).Just? {
      StandingSince(init, n, v);
    } else {
      RecordedWasInstalled(init, name, version, n, v);
    }
    InstalledMore(init, op, n, v);
  }

  lemma {:induction false} StandingSince(ops: seq<Op>, name: string, version: string)
    requires Standing(ops, name, version).Just?
    ensures Installed(ops, name, version)
  {
    var k := |ops| - 1;
    if !IsInstallOf(ops[k], name, version) {
      StandingSince(ops[..k], name, version);
      assert ops == ops[..k] + [ops[k]];
      InstalledMore(ops[..k], ops[k], name, version);
    }
  }

  // ---- declared dependencies -------------------------------------------------

  predicate SameConstraint(a: Constraint, b: Constraint) {
    && a.op == b.op && a.version.raw == b.version.raw && a.version.components == b.version.components
    && a.version.hasRevision == b.version.hasRevision && (a.version.hasRevision ==> a.version.revision == b.version.revision)
  }

  predicate SameDep(a: Dep, b: Dep) {
    && a.name == b.name && |a.constraints| == |b.constraints|
    && forall i :: 0 <= i < |a.constraints| ==> SameConstraint(a.constraints[i], b.constraints[i])
  }

  /** Two lists declare the same but for namespaces and marks. */
  predicate SameDeps(a: seq<Dep>, b: seq<Dep>) {
    |a| == |b| && forall i :: 0 <= i < |a| ==> SameDep(a[i], b[i])
  }

  function DeclaredAt(m: Manifest, name: string, version: string): Maybe<seq<Dep>> {
    if name in m.dependencies && version in m.dependencies[name] then Just(m.dependencies[name][version]) else Nothing
  }

  lemma {:induction false} StoredSame(a: seq<Dep>, b: seq<Dep>)
    requires SameDeps(a, b)
    ensures SameDeps(StoredDeps(a), b)
  {
    var r := StoredDeps(a);
    forall i | 0 <= i < |a| ensures SameDep(r[i], b[i]) {
      assert SameDep(a[i], b[i]);
      assert r[i] == StoredDep(a[i]);
    }
  }

  /** What is read of a list of declarations that was written. */
  function Kept(ds: Maybe<seq<Dep>>): Maybe<seq<Dep>> {
    if ds.Nothing? then Nothing else Just(StoredDeps(ds.value))
  }

  lemma {:induction false} DeclaredStored(m: Manifest, name: string, version: string)
    ensures DeclaredAt(m.(dependencies := StoredTable(m.dependencies)), name, version) == Kept(DeclaredAt(m, name, version))
  {
  }

  lemma {:induction false} DeclaredNext(m: Manifest, op: Op, name: string, version: string)
    ensures
      var r := Applied(m, op);
      DeclaredAt(ReadNext(m, op), name, version)
      == if r.Nothing? then DeclaredAt(m, name, version) else Kept(DeclaredAt(r.value, name, version))
  {
    var r := Applied(m, op);
    if r.Just? { DeclaredStored(r.value, name, version); }
  }

  lemma {:induction false} DeclaredSet(m: Manifest, d: Deployment, name: string, version: string)
    ensures
      DeclaredAt(Deployed(m, d), name, version)
      == if IsInstallOf(Install(d), name, version) then Just(d.dependencies) else DeclaredAt(m, name, version)
  {
  }

  lemma {:induction false} DeclaredRemoved(m: Manifest, name: string, versions: set<string>, n: string, v: string)
    requires SameVersions(m.repository, m.dependencies)
    ensures
      DeclaredAt(Removed(m, name, versions), n, v) == if n == name && v in versions then Nothing else DeclaredAt(m, n, v)
  {
    var cleared := Cleared(m, name, versions);
    if n == name && name in m.repository {
      var left, deps := m.repository[name] - versions, m.dependencies[name] - versions;
      assert VersionsAt(cleared.repository, name) == left && VersionsAt(cleared.dependencies, name) == deps;
      assert left.Keys == deps.Keys;
      assert v in deps <==> v in m.dependencies[name] && v !in versions;
      assert left == map[] ==> v !in left.Keys;
    }
  }

  lemma {:induction false} DeclaredIsInstalled(m: Manifest, name: string, version: string)
    requires SameVersions(m.repository, m.dependencies)
    ensures DeclaredAt(m, name, version).Just? <==> EntryAt(m, name, version).Just?
  {
    assert name in m.repository <==> name in m.dependencies;
    assert name in m.repository ==> m.repository[name].Keys == m.dependencies[name].Keys;
  }

  lemma {:induction false} DeclaredCleared(m: Manifest, name: string, version: string, n: string, v: string)
    requires SameVersions(m.repository, m.dependencies)
    ensures
      var r, versions := DeclaredAt(m, n, v), ToRemove(m, name, version);
      if versions.Nothing? then IsRemoveOf(Remove(name, version), n, v) ==> r.Nothing?
      else DeclaredAt(Removed(m, name, versions.value), n, v) == if IsRemoveOf(Remove(name, version), n, v) then Nothing else r
  {
    DeclaredIsInstalled(m, n, v);
    if EntryAt(m, n, v).Just? { RemoveTakes(m, name, version, n, v); }
    var versions := ToRemove(m, name, version);
    if versions.Just? { DeclaredRemoved(m, name, versions.value, n, v); }
  }

  /** What is declared of a version is changed by the operations on it alone, but for what
      the file does not keep. */
  lemma {:induction false} DeclaredAfter(m: Manifest, op: Op, name: string, version: string)
    requires Good(m)
    ensures
      var r, was := DeclaredAt(ReadNext(m, op), name, version), DeclaredAt(m, name, version);
      if IsInstallOf(op, name, version) then r == Just(StoredDeps(op.d.dependencies))
      else if IsRemoveOf(op, name, version) then r.Nothing?
      else r == was || r == Kept(was)
  {
    DeclaredNext(m, op, name, version);
    match op
    case Install(d) => DeclaredSet(m, d, name, version);
    case Remove(n, v) => DeclaredCleared(m, n, v, name, version);
  }

  ghost predicate DeclaresAs(r: Maybe<seq<Dep>>, d: Maybe<Deployment>) {
    (r.Just? <==> d.Just?) && (r.Just? ==> SameDeps(r.value, d.value.dependencies))
  }

  lemma {:induction false} DeclaredStep(r: Maybe<seq<Dep>>, was: Maybe<seq<Dep>>, d: Maybe<Deployment>)
    requires DeclaresAs(was, d) && (r == was || r == Kept(was))
    ensures DeclaresAs(r, d)
  {
    if was.Just? { StoredSame(was.value, d.value.dependencies); }
  }

  lemma {:induction false} StandingNext(init: seq<Op>, op: Op, name: string, version: string)
    ensures
      Standing(init + [op], name, version)
      == if IsInstallOf(op, name, version) then Just(op.d)
         else if IsRemoveOf(op, name, version) then Nothing else Standing(init, name, version)
  {
    assert (init + [op])[..|init|] == init;
  }

  lemma {:induction false} DeclaredHere(r: Maybe<seq<Dep>>, d: Deployment)
    requires r == Just(StoredDeps(d.dependencies))
    ensures DeclaresAs(r, Just(d))
  {
    SameSelf(d.dependencies);
    StoredSame(d.dependencies, d.dependencies);
  }

  lemma SameSelf(ds: seq<Dep>)
    ensures SameDeps(ds, ds)
  {
  }

  lemma {:induction false} DeclaredOn(m: Manifest, op: Op, name: string, version: string, d: Maybe<Deployment>)
    requires Good(m) && DeclaresAs(DeclaredAt(m, name, version), d)
    ensures
      DeclaresAs(DeclaredAt(ReadNext(m, op), name, version),
                 if IsInstallOf(op, name, version) then Just(op.d)
                 else if IsRemoveOf(op, name, version) then Nothing else d)
  {
    DeclaredAfter(m, op, name, version);
    if IsInstallOf(op, name, version) {
      DeclaredHere(DeclaredAt(ReadNext(m, op), name, version), op.d);
    } else if !IsRemoveOf(op, name, version) {
      DeclaredStep(DeclaredAt(ReadNext(m, op), name, version), DeclaredAt(m, name, version), d);
    }
  }

  /** The dependency table declares for each version that stands what its last install
      declared. */
  lemma {:induction false} RunDeclares(ops: seq<Op>, name: string, version: string)
    requires CleanRun(ops)
    ensures DeclaresAs(DeclaredAt(TreeOf(ops), name, version), Standing(ops, name, version))
    decreases |ops|
  {
    if ops == [] {
      TreeStart();
    } else {
      var init, op := LastOp(ops);
      RunDeclares(init, name, version);
      TreeNext(init, op);
      StandingNext(init, op, name, version);
      DeclaredOn(TreeOf(init), op, name, version, Standing(init, name, version));
    }
  }

  // ---- items that are listed and not recorded --------------------------------

  /** The version is listed for the item, and its entry does not have it. */
  ghost predicate Stale(ops: seq<Op>, command: bool, item: string, name: string, version: string)
    requires CleanRun(ops)
  {
    var e := EntryAt(TreeOf(ops), name, version);
    && Lists(TreeOf(ops), command, item, Token(name, version))
    && (e.Just? ==> item !in if command then e.value.commands else e.value.modules)
  }

  /** That is so exactly when an earlier deployment since the last removal had the item and
      the last one has not. */
  lemma {:induction false} StaleExactly(ops: seq<Op>, command: bool, item: string, name: string, version: string)
    requires CleanRun(ops) && '/' !in name
    ensures Stale(ops, command, item, name, version) <==>
      && Provided(ops, command, item, name, version) && Standing(ops, name, version).Just?
      && item !in ItemsIn(Standing(ops, name, version).value, command)
  {
    RunProvides(ops, command, item, name, version);
    RunRecords(ops, name, version);
    if Lists(TreeOf(ops), command, item, Token(name, version)) {
      ListedIsInstalled(TreeOf(ops), command, item, name, version);
    }
  }

  /** Deploying a version again without a module that it had leaves it listed as a
      provider of that module. */
  lemma {:induction false} RedeployedIsStale(d: Deployment, e: Deployment, item: string)
    requires CleanOp(Install(d)) && CleanOp(Install(e)) && d.package == e.package && d.version == e.version
    requires item in d.modules && item !in e.modules
    ensures CleanRun([Install(d), Install(e)]) && Stale([Install(d), Install(e)], false, item, d.package, d.version)
  {
    var ops := [Install(d), Install(e)];
    assert ops[..1] == [Install(d)] && ops[..1][..0] == [];
    assert Provided(ops[..1], false, item, d.package, d.version);
    StaleExactly(ops, false, item, d.package, d.version);
  }
}
