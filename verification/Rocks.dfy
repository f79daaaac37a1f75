/** types.go: the records the packages exchange, cut down to the fields that the
    modelled code reads. */
module Rocks {
  import opened Versions
  import opened Constraints

  datatype Maybe<+T> = Nothing | Just(value: T)

  /** A dependency: a rock name, its namespace and the AND'd constraints. */
  datatype Dep = Dep(name: string, namespace: string, constraints: seq<Constraint>)

  datatype Rockspec = Rockspec(package: string, dependencies: seq<Dep>)

  /** One row of a RemoteIndex.Query result. */
  datatype VersionedRock = VersionedRock(name: string, version: Version, url: string, spec: Maybe<Rockspec>)

  datatype InstallStep = InstallStep(name: string, version: Version, url: string, rockspec: Maybe<Rockspec>)

  /** What a tree manifest records of one installed version.  A nil map of the source
      is the empty map. */
  datatype RepoEntry = RepoEntry(
    arch: string,
    modules: map<string, string>,
    commands: map<string, string>,
    dependencies: map<string, string>)

  type Providers = map<string, seq<string>>

  /** The tree manifest. */
  datatype Manifest = Manifest(
    repository: map<string, map<string, RepoEntry>>,
    modules: Providers,
    commands: Providers,
    dependencies: map<string, map<string, seq<Dep>>>)

  const EMPTY_MANIFEST := Manifest(map[], map[], map[], map[])

  /** The files of one installed version: slashed path to md5 in each directory. */
  datatype RockManifest = RockManifest(
    rockspec: string,
    rockspecFile: string,
    lua: map<string, string>,
    lib: map<string, string>,
    bin: map<string, string>,
    conf: map<string, string>,
    doc: map<string, string>)
}
