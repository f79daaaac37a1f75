/** client/native.go: what deployRock and Remove do to the tree manifest. */
module TreeIndex {
  import opened Text
  import opened Rocks
  import opened ProviderLists

  /** What one deployment records: the module index of the files it wrote, the commands
      (none when it wrote no binary), and the declared dependencies. */
  datatype Deployment = Deployment(
    package: string,
    version: string,
    modules: map<string, string>,
    commands: map<string, string>,
    dependencies: seq<Dep>)

  // ---- deployRock ----------------------------------------------------------

  function ListAt(index: Providers, item: string): seq<string> {
    if item in index then index[item] else []
  }

  /** The index with provider at the head of every list in items. */
  function UpsertAll(index: Providers, items: set<string>, provider: string): Providers {
    map item | item in index.Keys + items ::
      if item in items then Upsert(ListAt(index, item), provider, true) else index[item]
  }

  lemma {:induction false} UpsertOne(index: Providers, done: set<string>, item: string, provider: string)
    requires item !in done
    ensures ListAt(UpsertAll(index, done, provider), item) == ListAt(index, item)
    ensures UpsertAll(index, done, provider)[item := Upsert(ListAt(index, item), provider, true)]
         == UpsertAll(index, done + {item}, provider)
  {
  }

  lemma UpsertNone(index: Providers, provider: string)
    ensures UpsertAll(index, {}, provider) == index
  {
  }

  /** One element fewer left is one more done. */
  lemma Shrink(all: set<string>, left: set<string>, x: string)
    requires left <= all && x in left
    ensures all - (left - {x}) == all - left + {x}
  {
  }

  method UpsertEach(index: Providers, items: set<string>, provider: string) returns (out: Providers)
    ensures out == UpsertAll(index, items, provider)
  {
    out := index;
    var left := items;
    UpsertNone(index, provider);
    while left != {}
      invariant left <= items
      invariant out == UpsertAll(index, items - left, provider)
      decreases |left|
    {
      var item :| item in left;
      UpsertOne(index, items - left, item, provider);
      Shrink(items, left, item);
      var list := UpsertProvider(ListAt(out, item), provider, true);
      out := out[item := list];
      left := left - {item};
    }
    assert items - {} == items;
  }

  /** The dependency names that resolveInstalledDeps finds installed. */
  function FoundDeps(package: string, deps: seq<Dep>, repository: map<string, map<string, RepoEntry>>): (r: set<string>)
    ensures forall n :: n in r <==>
      n != package && n in repository && repository[n] != map[] && exists i :: 0 <= i < |deps| && deps[i].name == n
  {
    set i | 0 <= i < |deps|
      && deps[i].name != package && deps[i].name in repository && repository[deps[i].name] != map[] :: deps[i].name
  }

  /** resolveInstalledDeps */
  function InstalledDeps(package: string, deps: seq<Dep>, repository: map<string, map<string, RepoEntry>>):
    (r: map<string, string>)
  {
    map n | n in FoundDeps(package, deps, repository) :: Highest(repository[n].Keys)
  }

  method ResolveInstalledDeps(package: string, deps: seq<Dep>, repository: map<string, map<string, RepoEntry>>)
    returns (out: map<string, string>)
    ensures out == InstalledDeps(package, deps, repository)
  {
    out := map[];
    for i := 0 to |deps|
      invariant out.Keys == FoundDeps(package, deps[..i], repository)
      invariant forall n :: n in out ==> out[n] == Highest(repository[n].Keys)
    {
      assert forall j :: 0 <= j < i ==> deps[..i + 1][j] == deps[..i][j];
      assert deps[..i + 1][i] == deps[i];
      var name := deps[i].name;
      if name != package && name in repository && |repository[name]| > 0 {
        var best := HighestVersion(repository[name].Keys);
        out := out[name := best];
      }
      assert out.Keys == FoundDeps(package, deps[..i + 1], repository) by {
        FoundDepsStep(package, deps, i, repository);
      }
    }
    assert deps[..|deps|] == deps;
  }

  lemma {:induction false} FoundDepsStep(package: string, deps: seq<Dep>, i: nat,
                                         repository: map<string, map<string, RepoEntry>>)
    requires i < |deps|
    ensures
      var name, before := deps[i].name, FoundDeps(package, deps[..i], repository);
      FoundDeps(package, deps[..i + 1], repository)
      == if name != package && name in repository && repository[name] != map[] then before + {name} else before
  {
    var short, long := deps[..i], deps[..i + 1];
    assert forall j :: 0 <= j < i ==> long[j] == short[j];
    assert long[i] == deps[i];
  }

  function VersionsAt<T>(m: map<string, map<string, T>>, name: string): map<string, T> {
    if name in m then m[name] else map[]
  }

  /** A table of versions with one entry set. */
  function SetVersion<T>(m: map<string, map<string, T>>, name: string, version: string, x: T): map<string, map<string, T>> {
    m[name := VersionsAt(m, name)[version := x]]
  }

  function EntryOf(m: Manifest, d: Deployment): RepoEntry {
    RepoEntry("installed", d.modules, d.commands, InstalledDeps(d.package, d.dependencies, m.repository))
  }

  /** The manifest after deployRock. */
  function Deployed(m: Manifest, d: Deployment): Manifest {
    var token := Token(d.package, d.version);
    Manifest(
      SetVersion(m.repository, d.package, d.version, EntryOf(m, d)),
      UpsertAll(m.modules, d.modules.Keys, token),
      UpsertAll(m.commands, d.commands.Keys, token),
      SetVersion(m.dependencies, d.package, d.version, d.dependencies))
  }

  // ---- Remove --------------------------------------------------------------

  function Tokens(name: string, versions: set<string>): (r: set<string>)
    ensures forall t :: t in r <==> exists v :: v in versions && t == Token(name, v)
  {
    set v | v in versions :: Token(name, v)
  }

  /** The versions Remove takes away: one, or all when none is named; Nothing when the
      rock or the version is not installed. */
  function ToRemove(m: Manifest, name: string, version: string): Maybe<set<string>> {
    var versions := VersionsAt(m.repository, name);
    if versions == map[] then Nothing
    else if version == "" then Just(versions.Keys)
    else if version in versions then Just({version})
    else Nothing
  }

  /** A table without some versions of a name. */
  function ClearVersions<T>(m: map<string, map<string, T>>, name: string, versions: set<string>): map<string, map<string, T>> {
    if name in m then m[name := m[name] - versions] else m
  }

  /** The manifest after the loop over the versions. */
  function Cleared(m: Manifest, name: string, versions: set<string>): Manifest {
    Manifest(
      ClearVersions(m.repository, name, versions),
      Dropped(m.modules, Tokens(name, versions)),
      Dropped(m.commands, Tokens(name, versions)),
      ClearVersions(m.dependencies, name, versions))
  }

  /** The manifest after Remove: a rock without versions is forgotten. */
  function Removed(m: Manifest, name: string, versions: set<string>): Manifest {
    var cleared := Cleared(m, name, versions);
    if VersionsAt(cleared.repository, name) == map[]
    then cleared.(repository := cleared.repository - {name}, dependencies := cleared.dependencies - {name})
    else cleared
  }

  lemma {:induction false} ClearedTwice<T>(m: map<string, map<string, T>>, name: string, done: set<string>, v: string)
    ensures ClearVersions(ClearVersions(m, name, done), name, {v}) == ClearVersions(m, name, done + {v})
  {
    if name in m {
      assert m[name] - done - {v} == m[name] - (done + {v});
    }
  }

  lemma {:induction false} ClearedStep(m: Manifest, name: string, done: set<string>, v: string)
    ensures Cleared(Cleared(m, name, done), name, {v}) == Cleared(m, name, done + {v})
  {
    assert Tokens(name, done) + Tokens(name, {v}) == Tokens(name, done + {v});
    DroppedTwice(m.modules, Tokens(name, done), Tokens(name, {v}));
    DroppedTwice(m.commands, Tokens(name, done), Tokens(name, {v}));
    ClearedTwice(m.repository, name, done, v);
    ClearedTwice(m.dependencies, name, done, v);
  }

  ghost function ClearedSoFar(m: Manifest, name: string, done: set<string>): Manifest {
    if done == {} then m else Cleared(m, name, done)
  }

  lemma {:induction false} ClearedSoFarStep(m: Manifest, name: string, done: set<string>, v: string)
    ensures Cleared(ClearedSoFar(m, name, done), name, {v}) == ClearedSoFar(m, name, done + {v})
  {
    if done == {} {
      assert done + {v} == {v};
    } else {
      ClearedStep(m, name, done, v);
    }
  }

  // ---- the manifest the engine holds ---------------------------------------

  class TreeManifest {
    var repository: map<string, map<string, RepoEntry>>
    var modules: Providers
    var commands: Providers
    var dependencies: map<string, map<string, seq<Dep>>>

    function Contents(): Manifest
      reads this
    {
      Manifest(repository, modules, commands, dependencies)
    }

    constructor (m: Manifest)
      ensures Contents() == m
    {
      repository, modules, commands, dependencies := m.repository, m.modules, m.commands, m.dependencies;
    }

    method RecordDependencies(package: string, version: string, deps: seq<Dep>)
      modifies this`dependencies
      ensures dependencies == SetVersion(old(dependencies), package, version, deps)
    {
      if package !in dependencies {
        dependencies := dependencies[package := map[]];
      }
      dependencies := dependencies[package := dependencies[package][version := deps]];
    }

    /** The part of deployRock that follows the deployment. */
    method Record(d: Deployment)
      modifies this
      ensures Contents() == Deployed(old(Contents()), d)
    {
      ghost var was := repository;
      if d.package !in repository {
        repository := repository[d.package := map[]];
      }
      var pkgVer := d.package + "/" + d.version;
      modules := UpsertEach(modules, d.modules.Keys, pkgVer);
      commands := UpsertEach(commands, d.commands.Keys, pkgVer);
      RecordDependencies(d.package, d.version, d.dependencies);
      SelfIsSkipped(d.package, d.dependencies, was, repository);
      var deps := ResolveInstalledDeps(d.package, d.dependencies, repository);
      var entry := RepoEntry("installed", d.modules, d.commands, deps);
      repository := repository[d.package := repository[d.package][d.version := entry]];
      assert repository == SetVersion(was, d.package, d.version, entry);
    }

    /** One turn of Remove's loop. */
    method DropVersion(name: string, v: string)
      requires name in repository
      modifies this
      ensures Contents() == Cleared(old(Contents()), name, {v})
    {
      var pkgVer := name + "/" + v;
      repository := repository[name := repository[name] - {v}];
      modules := RemoveProvider(modules, pkgVer);
      commands := RemoveProvider(commands, pkgVer);
      if name in dependencies {
        dependencies := dependencies[name := dependencies[name] - {v}];
      }
      assert Tokens(name, {v}) == {pkgVer};
    }

    /** Remove's loop and the clean-up behind it. */
    method RemoveVersions(name: string, toRemove: set<string>)
      requires name in repository && toRemove != {}
      modifies this
      ensures Contents() == Removed(old(Contents()), name, toRemove)
    {
      ghost var was := Contents();
      var left := toRemove;
      assert toRemove - toRemove == {} && toRemove - {} == toRemove;
      while left != {}
        invariant left <= toRemove && name in repository
        invariant Contents() == ClearedSoFar(was, name, toRemove - left)
        decreases |left|
      {
        var v :| v in left;
        ClearedSoFarStep(was, name, toRemove - left, v);
        Shrink(toRemove, left, v);
        DropVersion(name, v);
        left := left - {v};
      }
      if |repository[name]| == 0 {
        repository := repository - {name};
        dependencies := dependencies - {name};
      }
    }

    method Remove(name: string, version: string) returns (ok: bool)
      modifies this
      ensures ok == ToRemove(old(Contents()), name, version).Just?
      ensures Contents() == if ok then Removed(old(Contents()), name, ToRemove(old(Contents()), name, version).value)
                            else old(Contents())
    {
      if name !in repository || |repository[name]| == 0 {
        return false;
      }
      if version != "" {
        if version !in repository[name] {
          return false;
        }
        RemoveVersions(name, {version});
      } else {
        assert repository[name].Keys != {};
        RemoveVersions(name, repository[name].Keys);
      }
      return true;
    }
  }

  /** The rock's own versions play no part in resolving its dependencies. */
  lemma {:induction false} SelfIsSkipped(package: string, deps: seq<Dep>,
                                         a: map<string, map<string, RepoEntry>>, b: map<string, map<string, RepoEntry>>)
    requires forall n :: n != package ==> (n in a <==> n in b) && (n in a ==> a[n] == b[n])
    ensures InstalledDeps(package, deps, a) == InstalledDeps(package, deps, b)
  {
    assert FoundDeps(package, deps, a) == FoundDeps(package, deps, b);
  }
}
