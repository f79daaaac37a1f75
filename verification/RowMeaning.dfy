/** What the rows of a query and of a search are, read off the manifests that the servers
    hold. */
module RowMeaning {
  import opened Text
  import opened Versions
  import opened Constraints
  import opened ConstraintMeaning
  import opened Rocks
  import opened RemoteManifests
  import opened ManifestCaches
  import opened RockSearch
  import opened ArtifactURLs
  import SortedKeys

  /** The URL leads to the file of this offering on this server. */
  ghost predicate PointsAt(url: string, server: string, directory: bool, name: string, version: string, arch: string) {
    exists base :: BaseOfServer(server, directory, base) && PointsFrom(base, url, name, version, arch)
  }

  ghost predicate PointsFrom(base: string, url: string, name: string, version: string, arch: string) {
    && (SlashFree(name) && SlashFree(version) && SlashFree(arch) && '.' !in arch ==>
          ReadURL(url) == Reading(PlaceOf(base, name, version, arch), name + "-" + version, ArchSaid(arch)))
    && ('.' !in arch ==> KindOf(url) == KindOfArch(arch))
  }

  lemma {:induction false} ArtifactPoints(server: string, name: string, version: string, arch: string)
    ensures PointsAt(ArtifactURL(server, name, version, arch), server, LocalServerPath(server).Just?, name, version, arch)
  {
    var base := URLIs(server, name, version, arch);
    FilePoints(base, name, version, arch);
  }

  lemma {:induction false} FilePoints(base: string, name: string, version: string, arch: string)
    ensures PointsFrom(base, base + "/" + ArtifactFile(name, version, arch), name, version, arch)
  {
    if '.' !in arch { KindBack(base, name, version, arch); }
    if SlashFree(name) && SlashFree(version) && SlashFree(arch) && '.' !in arch { FileBack(base, name, version, arch); }
  }

  lemma {:induction false} RockURLPoints(server: string, name: string, version: string, arch: string)
    ensures PointsAt(MakeRockURL(server, name, version, arch), server, false, name, version, arch)
  {
    TrimmedBase(server);
    FilePoints(TrimSlashes(server), name, version, arch);
  }

  // ---- what is offered -------------------------------------------------------

  /** The server's manifest offers this version of the rock for this arch. */
  ghost predicate Stocked(m: RemoteManifest, name: string, version: string, arch: string) {
    name in m.repository && version in m.repository[name] && arch in m.repository[name][version]
  }

  /** The arches that a query takes by default. */
  predicate Usable(arch: string, host: string) {
    arch in {"src", "all", "rockspec", "installed", host}
  }

  /** What a query draws on: the servers, whether they are read as directories, the Lua
      version, the host's arch, the rock and its namespace. */
  datatype Asking = Asking(
    web: Web, servers: seq<string>, directories: bool, lv: string, host: string, name: string, namespace: string)

  predicate Sited(a: Asking) {
    a.directories ==> AllLocal(a.servers)
  }

  function ManifestOf(a: Asking, server: string): Maybe<RemoteManifest>
    requires a.directories ==> IsLocal(server)
  {
    FreshBy(a.web, Key(server, a.namespace, a.lv), a.directories)
  }

  ghost predicate Offered(a: Asking, version: string, server: string, arch: string)
    requires Sited(a)
  {
    && server in a.servers && ManifestOf(a, server).Just?
    && Stocked(ManifestOf(a, server).value, a.name, version, arch) && Usable(arch, a.host)
  }

  function MergedOf(a: Asking): Offers
    requires Sited(a)
  {
    MergedOver(a.web, a.servers, a.directories, a.lv, a.host, a.name, a.namespace).0
  }

  lemma {:induction false} ItemsMerged(merged: Offers, m: RemoteManifest, server: string, name: string, host: string,
                                       v: string)
    ensures
      var versions := VersionsOf(m, name);
      ItemsAt(Merge(merged, m, server, name, host), v)
      == ItemsAt(merged, v) + if v in versions then ItemsOf(server, AcceptedArches(versions[v], host)) else []
  {
    var versions := VersionsOf(m, name);
    var items := ItemsWith(merged, server, versions, versions.Keys, host, v);
    assert v in Merge(merged, m, server, name, host) <==> v in merged.Keys + versions.Keys && items != [];
  }

  /** An item of a version is one that a server offers. */
  ghost predicate ItemsAreOffers(a: Asking, v: string)
    requires Sited(a)
  {
    forall item :: item in ItemsAt(MergedOf(a), v) <==> Offered(a, v, item.server, item.arch)
  }

  lemma {:induction false} ItemsOfOne(m: RemoteManifest, server: string, name: string, host: string, v: string, item: Item)
    ensures
      var versions := VersionsOf(m, name);
      item in (if v in versions then ItemsOf(server, AcceptedArches(versions[v], host)) else [])
      <==> item.server == server && Stocked(m, name, v, item.arch) && Usable(item.arch, host)
  {
    var versions := VersionsOf(m, name);
    if v in versions {
      var arches := AcceptedArches(versions[v], host);
      var items := ItemsOf(server, arches);
      if item.server == server && item.arch in arches {
        var i :| 0 <= i < |arches| && arches[i] == item.arch;
        assert items[i] == item;
      }
    }
  }

  lemma {:induction false} OfferedByLast(a: Asking, b: Asking, server: string, v: string, item: Item)
    requires Sited(a) && Sited(b) && b == a.(servers := b.servers) && a.servers == b.servers + [server]
    requires a.directories ==> IsLocal(server)
    ensures
      var m := ManifestOf(a, server);
      Offered(a, v, item.server, item.arch) <==>
        || Offered(b, v, item.server, item.arch)
        || (item.server == server && m.Just? && Stocked(m.value, a.name, v, item.arch) && Usable(item.arch, a.host))
  {
  }

  lemma {:induction false} MergedStep(a: Asking, b: Asking, server: string, v: string)
    requires Sited(a) && Sited(b) && b == a.(servers := b.servers) && a.servers == b.servers + [server]
    requires a.directories ==> IsLocal(server)
    ensures
      var m := ManifestOf(a, server);
      MergedOf(a) == if m.Nothing? then MergedOf(b) else Merge(MergedOf(b), m.value, server, a.name, a.host)
  {
    assert a.servers[..|a.servers| - 1] == b.servers;
  }

  lemma {:induction false} MergedOffers(a: Asking, v: string)
    requires Sited(a)
    ensures ItemsAreOffers(a, v)
    decreases |a.servers|
  {
    if a.servers != [] {
      var n := |a.servers| - 1;
      var b, server := a.(servers := a.servers[..n]), a.servers[n];
      assert a.servers == b.servers + [server];
      MergedOffers(b, v);
      MergedStep(a, b, server, v);
      var m := ManifestOf(a, server);
      if m.Just? { ItemsMerged(MergedOf(b), m.value, server, a.name, a.host, v); }
      forall item ensures item in ItemsAt(MergedOf(a), v) <==> Offered(a, v, item.server, item.arch) {
        if m.Just? { ItemsOfOne(m.value, server, a.name, a.host, v, item); }
        OfferedByLast(a, b, server, v, item);
      }
    }
  }

  // ---- the rows of a query ---------------------------------------------------

  /** A built rock is preferred to all else, and a source rock to a bare rockspec. */
  ghost predicate Preferred(a: Asking, v: string, arch: string)
    requires Sited(a)
  {
    if exists s, b :: Offered(a, v, s, b) && b != "src" && b != "rockspec" then arch != "src" && arch != "rockspec"
    else (exists s :: Offered(a, v, s, "src")) ==> arch == "src"
  }

  /** row is the one of this version: it leads to the preferred offering. */
  ghost predicate RowFor(a: Asking, row: VersionedRock, v: string, server: string, arch: string)
    requires Sited(a)
  {
    && row.name == a.name && Parse(v) == Ok(row.version) && row.spec.Nothing?
    && Offered(a, v, server, arch) && Preferred(a, v, arch)
    && PointsAt(row.url, server, a.directories, a.name, v, arch)
  }

  ghost predicate IsRow(a: Asking, row: VersionedRock, v: string)
    requires Sited(a)
  {
    exists server, arch :: RowFor(a, row, v, server, arch)
  }

  lemma {:induction false} ItemPoints(directories: bool, item: Item, name: string, v: string)
    requires directories ==> IsLocal(item.server)
    ensures PointsAt(URLBy(directories)(item, name, v), item.server, directories, name, v, item.arch)
  {
    if directories {
      ArtifactPoints(item.server, name, v, item.arch);
    } else {
      RockURLPoints(item.server, name, v, item.arch);
    }
  }

  lemma {:induction false} PickPreferred(a: Asking, v: string, items: seq<Item>)
    requires Sited(a) && items != [] && forall item :: item in items <==> Offered(a, v, item.server, item.arch)
    ensures Preferred(a, v, items[PickIndex(Arches(items))].arch)
  {
    var arches := Arches(items);
    PickMeaning(arches);
    forall s, b | Offered(a, v, s, b) ensures exists i :: 0 <= i < |arches| && arches[i] == b {
      assert Item(s, b) in items;
      var i :| 0 <= i < |items| && items[i] == Item(s, b);
      assert arches[i] == b;
    }
  }

  /** The row made of a version is the row of that version. */
  lemma {:induction false} MadeRow(a: Asking, v: string, items: seq<Item>)
    requires Sited(a) && items != [] && forall item :: item in items <==> Offered(a, v, item.server, item.arch)
    requires Parse(v).Ok?
    ensures
      var rows := RowOf(a.name, v, items, URLBy(a.directories));
      |rows| == 1 && IsRow(a, rows[0], v)
  {
    var item := items[PickIndex(Arches(items))];
    assert item in items;
    PickPreferred(a, v, items);
    ItemPoints(a.directories, item, a.name, v);
    var row := RowOf(a.name, v, items, URLBy(a.directories))[0];
    assert RowFor(a, row, v, item.server, item.arch);
  }

  /** The versions that parse. */
  function Parsing(versions: seq<string>): (r: seq<string>)
    ensures forall v :: v in r <==> v in versions && Parse(v).Ok?
  {
    if versions == [] then [] else
      var n := |versions| - 1;
      assert versions == versions[..n] + [versions[n]];
      Parsing(versions[..n]) + if Parse(versions[n]).Ok? then [versions[n]] else []
  }

  lemma {:induction false} ParsingSorted(versions: seq<string>)
    requires SortedKeys.StrictlySorted(versions)
    ensures SortedKeys.StrictlySorted(Parsing(versions))
  {
    if versions != [] {
      var n := |versions| - 1;
      ParsingSorted(versions[..n]);
      var init := Parsing(versions[..n]);
      forall i | 0 <= i < |init| ensures Less(init[i], versions[n]) {
        assert init[i] in versions[..n];
      }
    }
  }

  /** The rows are those of the versions that parse, one each and in order. */
  ghost predicate RowsOfKeys(a: Asking, rows: seq<VersionedRock>, keys: seq<string>)
    requires Sited(a)
  {
    |rows| == |keys| && forall i :: 0 <= i < |keys| ==> IsRow(a, rows[i], keys[i])
  }

  lemma {:induction false} OneMoreRow(a: Asking, rows: seq<VersionedRock>, keys: seq<string>, row: VersionedRock,
                                      v: string)
    requires Sited(a) && RowsOfKeys(a, rows, keys) && IsRow(a, row, v)
    ensures RowsOfKeys(a, rows + [row], keys + [v])
  {
  }

  lemma {:induction false} NextRow(a: Asking, rows: seq<VersionedRock>, keys: seq<string>, v: string, items: seq<Item>)
    requires Sited(a) && RowsOfKeys(a, rows, keys)
    requires items != [] && forall item :: item in items <==> Offered(a, v, item.server, item.arch)
    ensures RowsOfKeys(a, rows + RowOf(a.name, v, items, URLBy(a.directories)), keys + if Parse(v).Ok? then [v] else [])
  {
    if Parse(v).Ok? {
      MadeRow(a, v, items);
      var made := RowOf(a.name, v, items, URLBy(a.directories));
      assert made == [made[0]];
      OneMoreRow(a, rows, keys, made[0], v);
    } else {
      assert rows + [] == rows && keys + [] == keys;
    }
  }

  lemma {:induction false} RowsAre(a: Asking, versions: seq<string>)
    requires Sited(a)
    requires forall v :: v in versions ==> v in MergedOf(a) && MergedOf(a)[v] != []
    ensures RowsOfKeys(a, RowsOf(a.name, versions, MergedOf(a), URLBy(a.directories)), Parsing(versions))
  {
    if versions != [] {
      var n := |versions| - 1;
      var init, v := versions[..n], versions[n];
      assert versions == init + [v] && v in versions;
      RowsAre(a, init);
      MergedOffers(a, v);
      NextRow(a, RowsOf(a.name, init, MergedOf(a), URLBy(a.directories)), Parsing(init), v, MergedOf(a)[v]);
    }
  }

  ghost predicate SomeOffer(a: Asking, v: string)
    requires Sited(a)
  {
    exists server, arch :: Offered(a, v, server, arch)
  }

  lemma {:induction false} KeysOffered(a: Asking)
    requires Sited(a)
    ensures forall v :: v in MergedOf(a) <==> SomeOffer(a, v)
  {
    forall v ensures v in MergedOf(a) <==> SomeOffer(a, v) {
      MergedOffers(a, v);
      if v in MergedOf(a) {
        var item := MergedOf(a)[v][0];
        assert item in ItemsAt(MergedOf(a), v);
        assert Offered(a, v, item.server, item.arch);
      }
      if SomeOffer(a, v) {
        var server, arch :| Offered(a, v, server, arch);
        assert Item(server, arch) in ItemsAt(MergedOf(a), v);
      }
    }
  }

  /** A server's manifest cannot be read, or a version that is offered does not parse. */
  ghost predicate SomethingFails(a: Asking)
    requires Sited(a)
  {
    SomeLoadFails(a) || exists v :: SomeOffer(a, v) && Parse(v).Bad?
  }

  ghost predicate SomeLoadFails(a: Asking)
    requires Sited(a)
  {
    exists server :: server in a.servers && ManifestOf(a, server).Nothing?
  }

  lemma {:induction false} LoadsFail(a: Asking)
    requires Sited(a)
    ensures MergedOver(a.web, a.servers, a.directories, a.lv, a.host, a.name, a.namespace).1 <==> SomeLoadFails(a)
    decreases |a.servers|
  {
    if a.servers != [] {
      var n := |a.servers| - 1;
      var b, server := a.(servers := a.servers[..n]), a.servers[n];
      assert a.servers == b.servers + [server];
      LoadsFail(b);
      assert SomeLoadFails(a) <==> SomeLoadFails(b) || ManifestOf(a, server).Nothing? by {
        if ManifestOf(a, server).Nothing? { assert server in a.servers; }
        if SomeLoadFails(b) {
          var s :| s in b.servers && ManifestOf(b, s).Nothing?;
          assert s in a.servers && ManifestOf(a, s).Nothing?;
        }
      }
    }
  }

  lemma {:induction false} ParseFailsAt(versions: seq<string>)
    ensures ParseFails(versions) <==> exists v :: v in versions && Parse(v).Bad?
  {
    if versions != [] {
      var n := |versions| - 1;
      assert versions == versions[..n] + [versions[n]];
      ParseFailsAt(versions[..n]);
    }
  }

  /** The keys are the versions offered that parse, in the order of the strings. */
  ghost predicate KeysFor(a: Asking, keys: seq<string>)
    requires Sited(a)
  {
    SortedKeys.StrictlySorted(keys) && forall v :: v in keys <==> SomeOffer(a, v) && Parse(v).Ok?
  }

  lemma {:induction false} KeysAre(a: Asking)
    requires Sited(a)
    ensures
      var keys := SortedKeys.Strings(MergedOf(a).Keys);
      KeysFor(a, Parsing(keys)) && (ParseFails(keys) <==> exists v :: SomeOffer(a, v) && Parse(v).Bad?)
  {
    var keys := SortedKeys.Strings(MergedOf(a).Keys);
    KeysOffered(a);
    ParsingSorted(keys);
    ParseFailsAt(keys);
  }

  function RowsMade(a: Asking): seq<VersionedRock>
    requires Sited(a)
  {
    MergedRocks(a.name, MergedOf(a), URLBy(a.directories))
  }

  lemma {:induction false} AnswerRows(a: Asking)
    requires Sited(a)
    ensures
      var keys := SortedKeys.Strings(MergedOf(a).Keys);
      RowsOfKeys(a, RowsMade(a), Parsing(keys))
  {
    RowsAre(a, SortedKeys.Strings(MergedOf(a).Keys));
  }

  function Answered(a: Asking): Maybe<seq<VersionedRock>>
    requires Sited(a)
  {
    QueryAnswer(a.web, a.servers, a.directories, a.lv, a.host, a.name, a.namespace)
  }

  lemma {:induction false} AnswerIs(a: Asking)
    requires Sited(a)
    ensures
      Answered(a) == if a.servers == [] || (RowsMade(a) == [] && SomethingFails(a)) then Nothing else Just(RowsMade(a))
  {
    KeysAre(a);
    LoadsFail(a);
  }

  /** A query gives one row for each version that some server offers and that parses, in
      the order of the version strings, and each leads to the preferred offering.  It
      fails without servers, and where it has no row and something failed. */
  lemma {:induction false} QueryMeaning(a: Asking) returns (keys: seq<string>)
    requires Sited(a)
    ensures KeysFor(a, keys)
    ensures Answered(a).Nothing? <==> a.servers == [] || (keys == [] && SomethingFails(a))
    ensures Answered(a).Just? ==> RowsOfKeys(a, Answered(a).value, keys)
  {
    KeysAre(a);
    AnswerIs(a);
    AnswerRows(a);
    keys := Parsing(SortedKeys.Strings(MergedOf(a).Keys));
  }
}
