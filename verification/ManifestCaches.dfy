/** remote/cache.go and the loading in remote/remote.go and remote/file.go: manifests cached
    in each index and shared between indexes. */
module ManifestCaches {
  import opened Text
  import opened LuaValue
  import opened LuaGrammar
  import opened Tables
  import opened Rocks
  import opened RemoteManifests
  import SortedKeys

  // ---- servers with fixed contents -----------------------------------------

  /** What the servers hold: HTTP bodies, files, directories, and the decoders that are
      libraries of their own. */
  datatype Web = Web(
    get: string -> Maybe<string>,
    read: string -> Maybe<string>,
    isDir: string -> bool,
    unzip: (string, string) -> Maybe<string>,
    json: string -> Maybe<Value>)

  datatype Probe = Probe(name: string, isJSON: bool, isZip: bool, inner: string)

  function Probes(luaVersion: string): seq<Probe> {
    var versioned := "manifest-" + luaVersion;
    [Probe(versioned + ".zip", false, true, versioned),
     Probe(versioned, false, false, ""),
     Probe("manifest", false, false, ""),
     Probe(versioned + ".json", true, false, "")]
  }

  function Parsed(web: Web, p: Probe, body: string): Maybe<Value> {
    if p.isJSON then web.json(body)
    else
      var v := Read(body);
      if v.Ok? then Just(v.value) else Nothing
  }

  /** decodeManifest */
  function Decode(web: Web, server: string, p: Probe, body: string): Maybe<RemoteManifest> {
    var text := if p.isZip then web.unzip(body, p.inner) else Just(body);
    if text.Nothing? then Nothing
    else
      var v := Parsed(web, p, text.value);
      if v.Nothing? || !IsMap(v.value) then Nothing else Project(server, v.value.rec)
  }

  datatype Key = Key(server: string, namespace: string, luaVersion: string)

  function Fetch(web: Web, local: bool, path: string): Maybe<string> {
    if local then web.read(path) else web.get(path)
  }

  function TryProbe(web: Web, server: string, local: bool, base: string, p: Probe): Maybe<RemoteManifest> {
    var body := Fetch(web, local, base + p.name);
    if body.Nothing? then Nothing else Decode(web, server, p, body.value)
  }

  /** The first probe that is there and can be decoded. */
  function FirstDecoded(web: Web, server: string, local: bool, base: string, probes: seq<Probe>): Maybe<RemoteManifest> {
    if probes == [] then Nothing
    else
      var m := TryProbe(web, server, local, base, probes[0]);
      if m.Just? then m else FirstDecoded(web, server, local, base, probes[1..])
  }

  predicate IsLocal(server: string) {
    LocalServerPath(server).Just?
  }

  /** What the names of a server's manifests are appended to. */
  function BaseOf(server: string, namespace: string, local: bool): string
    requires local ==> IsLocal(server)
  {
    (if local then LocalServerPath(server).value else TrimSlashes(server)) + "/"
    + if namespace == "" then "" else "manifests/" + namespace + "/"
  }

  /** A load without any cache: from a directory, as the file index does it, or over
      HTTP. */
  function FreshBy(web: Web, key: Key, local: bool): Maybe<RemoteManifest>
    requires local ==> IsLocal(key.server)
  {
    var base := BaseOf(key.server, key.namespace, local);
    if local && !web.isDir(base) then Nothing
    else FirstDecoded(web, key.server, local, base, Probes(key.luaVersion))
  }

  /** A load by the index that the server's own form calls for. */
  function Fresh(web: Web, key: Key): Maybe<RemoteManifest> {
    FreshBy(web, key, IsLocal(key.server))
  }

  /** The loop over the probes. */
  method LoadFresh(web: Web, key: Key, local: bool) returns (m: Maybe<RemoteManifest>)
    requires local ==> IsLocal(key.server)
    ensures m == FreshBy(web, key, local)
  {
    var base := BaseOf(key.server, key.namespace, local);
    if local && !web.isDir(base) {
      return Nothing;
    }
    var probes := Probes(key.luaVersion);
    for i := 0 to |probes|
      invariant FirstDecoded(web, key.server, local, base, probes)
             == FirstDecoded(web, key.server, local, base, probes[i..])
    {
      assert probes[i..][0] == probes[i] && probes[i..][1..] == probes[i + 1..];
      var body := Fetch(web, local, base + probes[i].name);
      if body.Nothing? {
        continue;
      }
      m := Decode(web, key.server, probes[i], body.value);
      if m.Just? {
        return;
      }
    }
    return Nothing;
  }

  // ---- the two levels of caching -------------------------------------------

  type Memo = map<string, RemoteManifest>
  type Shared = map<Key, RemoteManifest>

  /** The result of a load, the caches it leaves, and whether it decoded a manifest.
      Without a shared cache the third part is Nothing. */
  datatype Answer = Answer(result: Maybe<RemoteManifest>, memo: Memo, shared: Maybe<Shared>, decoded: bool)

  /** A load through the caches, found being what it finds without them. */
  function Cached(found: Maybe<RemoteManifest>, key: Key, memoKey: string, memo: Memo, shared: Maybe<Shared>): Answer {
    if memoKey in memo then Answer(Just(memo[memoKey]), memo, shared, false)
    else if shared.Just? && key in shared.value then
      Answer(Just(shared.value[key]), memo[memoKey := shared.value[key]], shared, false)
    else if found.Nothing? then Answer(Nothing, memo, shared, false)
    else
      Answer(found, memo[memoKey := found.value],
             if shared.Just? then Just(shared.value[key := found.value]) else Nothing, true)
  }

  class ManifestCache {
    var manifests: Shared

    constructor ()
      ensures manifests == map[]
    {
      manifests := map[];
    }

    method Get(key: Key) returns (m: Maybe<RemoteManifest>)
      ensures m == if key in manifests then Just(manifests[key]) else Nothing
    {
      if key in manifests {
        return Just(manifests[key]);
      }
      return Nothing;
    }

    method Put(key: Key, m: RemoteManifest)
      modifies this
      ensures manifests == old(manifests)[key := m]
    {
      manifests := manifests[key := m];
    }
  }

  /** The contents of a cache; a nil cache has none. */
  function SharedOf(cache: ManifestCache?): Maybe<Shared>
    reads cache
  {
    if cache == null then Nothing else Just(cache.manifests)
  }

  function Cells(cache: ManifestCache?): set<object> {
    if cache == null then {} else {cache}
  }

  function LuaVersion(lv: string): string {
    if lv == "" then "5.1" else lv
  }

  /** The steps of load that both indexes share, behind their own memo: ask the shared
      cache, load, and put. */
  method LoadShared(web: Web, cache: ManifestCache?, key: Key, local: bool) returns (m: Maybe<RemoteManifest>)
    requires local ==> IsLocal(key.server)
    modifies Cells(cache)
    ensures forall memo, memoKey :: memoKey !in memo ==>
      var a := Cached(FreshBy(web, key, local), key, memoKey, memo, old(SharedOf(cache)));
      m == a.result && SharedOf(cache) == a.shared
  {
    if cache != null {
      m := cache.Get(key);
      if m.Just? {
        return;
      }
    }
    m := LoadFresh(web, key, local);
    if m.Just? && cache != null {
      cache.Put(key, m.value);
    }
  }

  /** What an HTTP index memoizes a manifest under. */
  function HTTPMemoKey(server: string, namespace: string): string {
    server + [0 as char] + namespace
  }

  predicate NotNul(c: char) {
    c != 0 as char
  }

  predicate NulFree(s: string) {
    All(s, NotNul)
  }

  /** The memo key tells servers and namespaces apart when no server name holds a NUL. */
  lemma {:induction false} MemoKeyApart(server: string, namespace: string, server': string, namespace': string)
    requires NulFree(server) && NulFree(server')
    requires HTTPMemoKey(server, namespace) == HTTPMemoKey(server', namespace')
    ensures server == server' && namespace == namespace'
  {
    var k, k' := HTTPMemoKey(server, namespace), HTTPMemoKey(server', namespace');
    RunIs(k, NotNul, |server|);
    RunIs(k', NotNul, |server'|);
    assert k[..|server|] == server && k'[..|server'|] == server';
    assert k[|server| + 1..] == namespace && k'[|server'| + 1..] == namespace';
  }

  class HTTPRemoteIndex {
    const web: Web
    const servers: seq<string>
    const luaVersion: string
    const arch: string
    const cache: ManifestCache?
    var memo: Memo

    constructor (web: Web, servers: seq<string>, luaVersion: string, arch: string, cache: ManifestCache?)
      ensures this.web == web && this.servers == servers && this.luaVersion == luaVersion && this.arch == arch
      ensures this.cache == cache && memo == map[]
    {
      this.web, this.servers, this.luaVersion, this.arch, this.cache := web, servers, luaVersion, arch, cache;
      memo := map[];
    }

    method Load(server: string, namespace: string) returns (m: Maybe<RemoteManifest>)
      modifies this`memo, Cells(cache)
      ensures
        var key := Key(server, namespace, LuaVersion(luaVersion));
        var a := Cached(FreshBy(web, key, false), key, HTTPMemoKey(server, namespace), old(memo), old(SharedOf(cache)));
        m == a.result && memo == a.memo && SharedOf(cache) == a.shared
    {
      var cacheKey := HTTPMemoKey(server, namespace);
      if cacheKey in memo {
        return Just(memo[cacheKey]);
      }
      m := LoadShared(web, cache, Key(server, namespace, LuaVersion(luaVersion)), false);
      if m.Just? {
        memo := memo[cacheKey := m.value];
      }
    }

    /** Query: the offerings of all servers that can be read, one row a version. */
    method Query(name: string, namespace: string, ghost truth: Key -> Maybe<RemoteManifest>)
      returns (r: Maybe<seq<VersionedRock>>)
      requires HTTPFaithful(web, luaVersion, memo) && SharedFaithful(truth, SharedOf(cache))
      requires forall i :: 0 <= i < |servers| ==> NulFree(servers[i])
      requires forall i :: 0 <= i < |servers| ==>
        TruthAt(web, truth, Key(servers[i], namespace, LuaVersion(luaVersion)), false, cache != null)
      modifies this`memo, Cells(cache)
      ensures HTTPFaithful(web, luaVersion, memo) && SharedFaithful(truth, SharedOf(cache))
      ensures r == QueryAnswer(web, servers, false, LuaVersion(luaVersion), arch, name, namespace)
    {
      if |servers| == 0 {
        return Nothing;
      }
      var merged: Offers := map[];
      var loadFailed := false;
      for i := 0 to |servers|
        invariant HTTPFaithful(web, luaVersion, memo) && SharedFaithful(truth, SharedOf(cache))
        invariant NonEmpty(merged)
        invariant (merged, loadFailed) == MergedOver(web, servers[..i], false, LuaVersion(luaVersion), arch, name, namespace)
      {
        assert servers[..i + 1][..i] == servers[..i];
        CachedIsFresh(web, truth, luaVersion, servers[i], namespace, memo, SharedOf(cache));
        var mf := Load(servers[i], namespace);
        if mf.Nothing? {
          loadFailed := true;
          continue;
        }
        merged := MergeServer(merged, mf.value, servers[i], name, arch);
      }
      assert servers[..|servers|] == servers;
      var out, parseFailed := MakeRows(name, merged, URLBy(false));
      if |out| == 0 && (loadFailed || parseFailed) {
        return Nothing;
      }
      return Just(out);
    }
  }

  class FileRemoteIndex {
    const web: Web
    const server: string
    const luaVersion: string
    const arch: string
    const cache: ManifestCache?
    var memo: Memo

    constructor (web: Web, server: string, luaVersion: string, arch: string, cache: ManifestCache?)
      ensures this.web == web && this.server == server && this.luaVersion == luaVersion && this.arch == arch
      ensures this.cache == cache && memo == map[]
    {
      this.web, this.server, this.luaVersion, this.arch, this.cache := web, server, luaVersion, arch, cache;
      memo := map[];
    }

    method Load(namespace: string) returns (m: Maybe<RemoteManifest>)
      requires IsLocal(server)
      modifies this`memo, Cells(cache)
      ensures
        var key := Key(server, namespace, LuaVersion(luaVersion));
        var a := Cached(FreshBy(web, key, true), key, namespace, old(memo), old(SharedOf(cache)));
        m == a.result && memo == a.memo && SharedOf(cache) == a.shared
    {
      if namespace in memo {
        return Just(memo[namespace]);
      }
      m := LoadShared(web, cache, Key(server, namespace, LuaVersion(luaVersion)), true);
      if m.Just? {
        memo := memo[namespace := m.value];
      }
    }

    /** Query on the one directory; a manifest that cannot be read ends it. */
    method Query(name: string, namespace: string, ghost truth: Key -> Maybe<RemoteManifest>)
      returns (r: Maybe<seq<VersionedRock>>)
      requires IsLocal(server) ==>
        FileFaithful(web, server, luaVersion, memo)
        && TruthAt(web, truth, Key(server, namespace, LuaVersion(luaVersion)), true, cache != null)
      requires SharedFaithful(truth, SharedOf(cache))
      modifies this`memo, Cells(cache)
      ensures IsLocal(server) ==> FileFaithful(web, server, luaVersion, memo)
      ensures SharedFaithful(truth, SharedOf(cache))
      ensures r == if LocalServerPath(server).Nothing? then Nothing
                   else QueryAnswer(web, [server], true, LuaVersion(luaVersion), arch, name, namespace)
    {
      if LocalServerPath(server).Nothing? {
        return Nothing;
      }
      FileCachedIsFresh(web, truth, luaVersion, server, namespace, memo, SharedOf(cache));
      OneServer(web, server, true, LuaVersion(luaVersion), arch, name, namespace);
      var mf := Load(namespace);
      if mf.Nothing? {
        return Nothing;
      }
      var merged := MergeServer(map[], mf.value, server, name, arch);
      var out, parseFailed := MakeRows(name, merged, URLBy(true));
      if |out| == 0 && parseFailed {
        return Nothing;
      }
      return Just(out);
    }
  }

  // ---- answers without caches ----------------------------------------------

  predicate AllLocal(servers: seq<string>) {
    forall i :: 0 <= i < |servers| ==> IsLocal(servers[i])
  }

  /** The merged offerings of the servers, and whether one of them failed to load. */
  function MergedOver(web: Web, servers: seq<string>, local: bool, lv: string, host: string, name: string,
                      namespace: string): (r: (Offers, bool))
    requires local ==> AllLocal(servers)
    ensures NonEmpty(r.0)
  {
    if servers == [] then (map[], false)
    else
      var n := |servers| - 1;
      var (merged, failed) := MergedOver(web, servers[..n], local, lv, host, name, namespace);
      var m := FreshBy(web, Key(servers[n], namespace, lv), local);
      if m.Nothing? then (merged, true) else (Merge(merged, m.value, servers[n], name, host), failed)
  }

  /** Query's answer when every manifest is loaded afresh. */
  function QueryAnswer(web: Web, servers: seq<string>, local: bool, lv: string, host: string, name: string,
                       namespace: string): Maybe<seq<VersionedRock>>
    requires local ==> AllLocal(servers)
  {
    if servers == [] then Nothing
    else
      var (merged, failed) := MergedOver(web, servers, local, lv, host, name, namespace);
      var out := MergedRocks(name, merged, URLBy(local));
      if out == [] && (failed || ParseFails(SortedKeys.Strings(merged.Keys))) then Nothing else Just(out)
  }

  lemma {:induction false} OneServer(web: Web, server: string, local: bool, lv: string, host: string, name: string,
                                     namespace: string)
    requires local ==> IsLocal(server)
    ensures
      var m := FreshBy(web, Key(server, namespace, lv), local);
      MergedOver(web, [server], local, lv, host, name, namespace)
      == if m.Nothing? then (map[], true) else (Merge(map[], m.value, server, name, host), false)
  {
    assert [server][..0] == [];
    assert MergedOver(web, [], local, lv, host, name, namespace) == (map[], false);
  }

  // ---- caches that hold what is there --------------------------------------

  ghost predicate HTTPFaithful(web: Web, lv: string, memo: Memo) {
    forall server, namespace :: NulFree(server) && HTTPMemoKey(server, namespace) in memo ==>
      FreshBy(web, Key(server, namespace, LuaVersion(lv)), false) == Just(memo[HTTPMemoKey(server, namespace)])
  }

  ghost predicate FileFaithful(web: Web, server: string, lv: string, memo: Memo)
    requires IsLocal(server)
  {
    forall namespace :: namespace in memo ==>
      FreshBy(web, Key(server, namespace, LuaVersion(lv)), true) == Just(memo[namespace])
  }

  /** The shared cache holds what truth says is there. */
  ghost predicate SharedFaithful(truth: Key -> Maybe<RemoteManifest>, shared: Maybe<Shared>) {
    shared.Just? ==> forall key :: key in shared.value ==> truth(key) == Just(shared.value[key])
  }

  function FreshIn(web: Web): Key -> Maybe<RemoteManifest> {
    (key: Key) => Fresh(web, key)
  }

  /** A load that shares the cache finds without it what the cache is to hold. */
  ghost predicate TruthAt(web: Web, truth: Key -> Maybe<RemoteManifest>, key: Key, local: bool, sharing: bool)
    requires local ==> IsLocal(key.server)
  {
    sharing ==> truth(key) == FreshBy(web, key, local)
  }

  /** A load through faithful caches answers as a fresh one and leaves them faithful; a
      failed load leaves them as they were. */
  lemma {:induction false} CachedIsFresh(web: Web, truth: Key -> Maybe<RemoteManifest>, lv: string, server: string,
                                         namespace: string, memo: Memo, shared: Maybe<Shared>)
    requires NulFree(server) && HTTPFaithful(web, lv, memo) && SharedFaithful(truth, shared)
    requires TruthAt(web, truth, Key(server, namespace, LuaVersion(lv)), false, shared.Just?)
    ensures
      var key := Key(server, namespace, LuaVersion(lv));
      var a := Cached(FreshBy(web, key, false), key, HTTPMemoKey(server, namespace), memo, shared);
      && a.result == FreshBy(web, key, false)
      && HTTPFaithful(web, lv, a.memo) && SharedFaithful(truth, a.shared)
      && (a.result.Nothing? ==> a.memo == memo && a.shared == shared)
  {
    var key := Key(server, namespace, LuaVersion(lv));
    var a := Cached(FreshBy(web, key, false), key, HTTPMemoKey(server, namespace), memo, shared);
    forall server', namespace' | NulFree(server') && HTTPMemoKey(server', namespace') in a.memo
      ensures FreshBy(web, Key(server', namespace', LuaVersion(lv)), false)
           == Just(a.memo[HTTPMemoKey(server', namespace')])
    {
      if HTTPMemoKey(server', namespace') == HTTPMemoKey(server, namespace) {
        MemoKeyApart(server, namespace, server', namespace');
      }
    }
  }

  lemma {:induction false} FileCachedIsFresh(web: Web, truth: Key -> Maybe<RemoteManifest>, lv: string, server: string,
                                             namespace: string, memo: Memo, shared: Maybe<Shared>)
    requires IsLocal(server) && FileFaithful(web, server, lv, memo) && SharedFaithful(truth, shared)
    requires TruthAt(web, truth, Key(server, namespace, LuaVersion(lv)), true, shared.Just?)
    ensures
      var key := Key(server, namespace, LuaVersion(lv));
      var a := Cached(FreshBy(web, key, true), key, namespace, memo, shared);
      && a.result == FreshBy(web, key, true)
      && FileFaithful(web, server, lv, a.memo) && SharedFaithful(truth, a.shared)
      && (a.result.Nothing? ==> a.memo == memo && a.shared == shared)
  {
  }

  // ---- any sequence of loads -------------------------------------------------

  /** An index of a client, with or without the client's shared cache. */
  datatype Index =
    | HTTP(luaVersion: string, sharing: bool)
    | File(server: string, luaVersion: string, sharing: bool)

  datatype Load = Load(index: nat, server: string, namespace: string)

  datatype Caches = Caches(shared: Shared, memos: seq<Memo>)

  /** The load is one that the index makes. */
  predicate Made(indexes: seq<Index>, l: Load) {
    && l.index < |indexes|
    && match indexes[l.index]
       case HTTP(_, _) => NulFree(l.server)
       case File(server, _, _) => l.server == server && IsLocal(server)
  }

  predicate AllMade(indexes: seq<Index>, loads: seq<Load>) {
    forall i :: 0 <= i < |loads| ==> Made(indexes, loads[i])
  }

  function KeyOf(ix: Index, l: Load): Key {
    Key(l.server, l.namespace, LuaVersion(ix.luaVersion))
  }

  /** What the load finds without caches. */
  function FreshOf(web: Web, indexes: seq<Index>, l: Load): Maybe<RemoteManifest>
    requires Made(indexes, l)
  {
    FreshBy(web, KeyOf(indexes[l.index], l), indexes[l.index].File?)
  }

  function MemoKeyOf(ix: Index, l: Load): string {
    if ix.HTTP? then HTTPMemoKey(l.server, l.namespace) else l.namespace
  }

  function AnswerTo(web: Web, indexes: seq<Index>, c: Caches, l: Load): Answer
    requires Made(indexes, l) && |c.memos| == |indexes|
  {
    var ix := indexes[l.index];
    Cached(FreshOf(web, indexes, l), KeyOf(ix, l), MemoKeyOf(ix, l), c.memos[l.index],
           if ix.sharing then Just(c.shared) else Nothing)
  }

  function NextCaches(web: Web, indexes: seq<Index>, c: Caches, l: Load): (r: Caches)
    requires Made(indexes, l) && |c.memos| == |indexes|
    ensures |r.memos| == |indexes|
  {
    var a := AnswerTo(web, indexes, c, l);
    Caches(if a.shared.Just? then a.shared.value else c.shared, c.memos[l.index := a.memo])
  }

  function CachesAfter(web: Web, indexes: seq<Index>, loads: seq<Load>): (c: Caches)
    requires AllMade(indexes, loads)
    ensures |c.memos| == |indexes|
  {
    if loads == [] then Caches(map[], seq(|indexes|, _ => map[]))
    else NextCaches(web, indexes, CachesAfter(web, indexes, loads[..|loads| - 1]), loads[|loads| - 1])
  }

  /** The k-th load of a run decodes a manifest. */
  predicate Decodes(web: Web, indexes: seq<Index>, loads: seq<Load>, k: nat)
    requires k < |loads| && AllMade(indexes, loads)
  {
    AnswerTo(web, indexes, CachesAfter(web, indexes, loads[..k]), loads[k]).decoded
  }

  predicate Shares(indexes: seq<Index>, l: Load)
    requires Made(indexes, l)
  {
    indexes[l.index].sharing
  }

  predicate SameShared(indexes: seq<Index>, l: Load, l': Load)
    requires Made(indexes, l) && Made(indexes, l')
  {
    Shares(indexes, l) && Shares(indexes, l') && KeyOf(indexes[l.index], l) == KeyOf(indexes[l'.index], l')
  }

  /** Two loads that share the cache under one key find the same without caches.  They
      always do unless one is over HTTP and the other from a directory. */
  ghost predicate Agreeing(web: Web, indexes: seq<Index>, loads: seq<Load>)
    requires AllMade(indexes, loads)
  {
    forall j, k :: 0 <= j < |loads| && 0 <= k < |loads| && SameShared(indexes, loads[j], loads[k]) ==>
      FreshOf(web, indexes, loads[j]) == FreshOf(web, indexes, loads[k])
  }

  /** The k-th load shares the cache under this key. */
  predicate SharesAt(indexes: seq<Index>, loads: seq<Load>, key: Key, k: nat)
    requires AllMade(indexes, loads)
  {
    k < |loads| && Shares(indexes, loads[k]) && KeyOf(indexes[loads[k].index], loads[k]) == key
  }

  // What a run's caches hold, without the caches.

  /** What the first of the loads that share the cache under the key finds, of those that
      find something. */
  function FirstFound(web: Web, indexes: seq<Index>, loads: seq<Load>, key: Key): Maybe<RemoteManifest>
    requires AllMade(indexes, loads)
  {
    if loads == [] then Nothing
    else
      var n := |loads| - 1;
      var m := FirstFound(web, indexes, loads[..n], key);
      if m.Just? || !SharesAt(indexes, loads, key, n) then m else FreshOf(web, indexes, loads[n])
  }

  /** What the loads so far, l among them, have l answer. */
  function Expected(web: Web, indexes: seq<Index>, loads: seq<Load>, l: Load): Maybe<RemoteManifest>
    requires AllMade(indexes, loads) && Made(indexes, l)
  {
    if Shares(indexes, l) then FirstFound(web, indexes, loads, KeyOf(indexes[l.index], l)) else FreshOf(web, indexes, l)
  }

  ghost predicate SharedHolds(web: Web, indexes: seq<Index>, loads: seq<Load>, shared: Shared)
    requires AllMade(indexes, loads)
  {
    forall key :: FirstFound(web, indexes, loads, key) == if key in shared then Just(shared[key]) else Nothing
  }

  ghost predicate MemosHold(web: Web, indexes: seq<Index>, loads: seq<Load>, memos: seq<Memo>)
    requires AllMade(indexes, loads) && |memos| == |indexes|
  {
    forall l :: Made(indexes, l) && MemoKeyOf(indexes[l.index], l) in memos[l.index] ==>
      Expected(web, indexes, loads, l) == Just(memos[l.index][MemoKeyOf(indexes[l.index], l)])
  }

  lemma {:induction false} SameMemoKey(indexes: seq<Index>, l: Load, l': Load)
    requires Made(indexes, l) && Made(indexes, l') && l.index == l'.index
    requires MemoKeyOf(indexes[l.index], l) == MemoKeyOf(indexes[l.index], l')
    ensures l == l'
  {
    if indexes[l.index].HTTP? { MemoKeyApart(l.server, l.namespace, l'.server, l'.namespace); }
  }

  lemma {:induction false} LastFound(web: Web, indexes: seq<Index>, before: seq<Load>, l: Load, key: Key)
    requires AllMade(indexes, before) && Made(indexes, l)
    ensures
      var m := FirstFound(web, indexes, before, key);
      && AllMade(indexes, before + [l])
      && FirstFound(web, indexes, before + [l], key)
         == if m.Just? || !Shares(indexes, l) || KeyOf(indexes[l.index], l) != key then m else FreshOf(web, indexes, l)
  {
    var loads := before + [l];
    assert loads[..|loads| - 1] == before && loads[|loads| - 1] == l;
  }

  /** One load answers as expected, and what it leaves in the shared cache is what the loads
      up to it found first. */
  lemma {:induction false} LoadAnswers(web: Web, indexes: seq<Index>, before: seq<Load>, c: Caches, l: Load)
    requires AllMade(indexes, before) && Made(indexes, l) && AllMade(indexes, before + [l]) && |c.memos| == |indexes|
    requires SharedHolds(web, indexes, before, c.shared) && MemosHold(web, indexes, before, c.memos)
    ensures AnswerTo(web, indexes, c, l).result == Expected(web, indexes, before + [l], l)
    ensures SharedHolds(web, indexes, before + [l], NextCaches(web, indexes, c, l).shared)
  {
    LastFound(web, indexes, before, l, KeyOf(indexes[l.index], l));
    forall key ensures FirstFound(web, indexes, before + [l], key)
      == var shared := NextCaches(web, indexes, c, l).shared; if key in shared then Just(shared[key]) else Nothing
    {
      LastFound(web, indexes, before, l, key);
    }
  }

  lemma {:induction false} LoadLeaves(web: Web, indexes: seq<Index>, before: seq<Load>, c: Caches, l: Load)
    requires AllMade(indexes, before) && Made(indexes, l) && AllMade(indexes, before + [l]) && |c.memos| == |indexes|
    requires SharedHolds(web, indexes, before, c.shared) && MemosHold(web, indexes, before, c.memos)
    ensures MemosHold(web, indexes, before + [l], NextCaches(web, indexes, c, l).memos)
  {
    var memos := NextCaches(web, indexes, c, l).memos;
    LoadAnswers(web, indexes, before, c, l);
    forall l' | Made(indexes, l') && MemoKeyOf(indexes[l'.index], l') in memos[l'.index]
      ensures Expected(web, indexes, before + [l], l') == Just(memos[l'.index][MemoKeyOf(indexes[l'.index], l')])
    {
      if l'.index == l.index && MemoKeyOf(indexes[l'.index], l') == MemoKeyOf(indexes[l.index], l) {
        SameMemoKey(indexes, l, l');
      } else {
        assert MemoKeyOf(indexes[l'.index], l') in c.memos[l'.index];
        LastFound(web, indexes, before, l, KeyOf(indexes[l'.index], l'));
      }
    }
  }

  lemma {:induction false} CachesHold(web: Web, indexes: seq<Index>, loads: seq<Load>)
    requires AllMade(indexes, loads)
    ensures
      var c := CachesAfter(web, indexes, loads);
      SharedHolds(web, indexes, loads, c.shared) && MemosHold(web, indexes, loads, c.memos)
  {
    if loads != [] {
      var n := |loads| - 1;
      var before, l := loads[..n], loads[n];
      assert loads == before + [l];
      CachesHold(web, indexes, before);
      LoadAnswers(web, indexes, before, CachesAfter(web, indexes, before), l);
      LoadLeaves(web, indexes, before, CachesAfter(web, indexes, before), l);
    }
  }

  /** The j-th load is the first to find something of those that share the cache under the
      key. */
  predicate Leads(web: Web, indexes: seq<Index>, loads: seq<Load>, key: Key, j: nat)
    requires AllMade(indexes, loads)
  {
    && SharesAt(indexes, loads, key, j) && FreshOf(web, indexes, loads[j]).Just?
    && forall i: nat :: i < j && SharesAt(indexes, loads, key, i) ==> FreshOf(web, indexes, loads[i]).Nothing?
  }

  lemma {:induction false} FirstFoundOne(web: Web, indexes: seq<Index>, loads: seq<Load>, key: Key, k: nat)
    requires AllMade(indexes, loads) && k < |loads|
    ensures
      var m := FirstFound(web, indexes, loads[..k], key);
      FirstFound(web, indexes, loads[..k + 1], key)
      == if m.Just? || !SharesAt(indexes, loads, key, k) then m else FreshOf(web, indexes, loads[k])
  {
    assert loads[..k + 1][..k] == loads[..k];
  }

  lemma {:induction false} FirstFoundLeads(web: Web, indexes: seq<Index>, loads: seq<Load>, key: Key, k: nat)
    requires AllMade(indexes, loads) && k <= |loads|
    ensures
      var m := FirstFound(web, indexes, loads[..k], key);
      if m.Just? then exists j: nat :: j < k && Leads(web, indexes, loads, key, j) && FreshOf(web, indexes, loads[j]) == m
      else forall j: nat :: j < k && SharesAt(indexes, loads, key, j) ==> FreshOf(web, indexes, loads[j]).Nothing?
  {
    if k > 0 {
      var n := k - 1;
      FirstFoundOne(web, indexes, loads, key, n);
      FirstFoundLeads(web, indexes, loads, key, n);
      if FirstFound(web, indexes, loads[..n], key).Just? {
        var j: nat :| j < n && Leads(web, indexes, loads, key, j)
                      && FreshOf(web, indexes, loads[j]) == FirstFound(web, indexes, loads[..n], key);
      } else if SharesAt(indexes, loads, key, n) && FreshOf(web, indexes, loads[n]).Just? {
        assert Leads(web, indexes, loads, key, n);
      }
    }
  }

  /** A load of any run answers what was first found under its shared key. */
  lemma {:induction false} AnswersFirst(web: Web, indexes: seq<Index>, loads: seq<Load>, k: nat)
    requires AllMade(indexes, loads) && k < |loads|
    ensures
      var m := FirstFound(web, indexes, loads[..k], KeyOf(indexes[loads[k].index], loads[k]));
      AnswerTo(web, indexes, CachesAfter(web, indexes, loads[..k]), loads[k]).result
      == if Shares(indexes, loads[k]) && m.Just? then m else FreshOf(web, indexes, loads[k])
  {
    CachesHold(web, indexes, loads[..k]);
    LastFound(web, indexes, loads[..k], loads[k], KeyOf(indexes[loads[k].index], loads[k]));
    LoadAnswers(web, indexes, loads[..k], CachesAfter(web, indexes, loads[..k]), loads[k]);
  }

  /** A load of any run answers as a load without caches if and only if the first load that
      found something under its shared key before it found the same. */
  lemma {:induction false} AnswersFreshExactly(web: Web, indexes: seq<Index>, loads: seq<Load>, k: nat)
    requires AllMade(indexes, loads) && k < |loads|
    ensures
      var key := KeyOf(indexes[loads[k].index], loads[k]);
      AnswerTo(web, indexes, CachesAfter(web, indexes, loads[..k]), loads[k]).result == FreshOf(web, indexes, loads[k])
      <==> (Shares(indexes, loads[k]) ==>
              forall j: nat :: j < k && Leads(web, indexes, loads, key, j) ==>
                FreshOf(web, indexes, loads[j]) == FreshOf(web, indexes, loads[k]))
  {
    AnswersFirst(web, indexes, loads, k);
    FirstFoundLeads(web, indexes, loads, KeyOf(indexes[loads[k].index], loads[k]), k);
  }

  /** Every load of every run, through any indexes, answers as a load without caches, when
      loads that share the cache under one key agree. */
  lemma {:induction false} RunsAnswerFresh(web: Web, indexes: seq<Index>, loads: seq<Load>, k: nat)
    requires k < |loads| && AllMade(indexes, loads)
    requires Agreeing(web, indexes, loads)
    ensures AnswerTo(web, indexes, CachesAfter(web, indexes, loads[..k]), loads[k]).result
         == FreshOf(web, indexes, loads[k])
  {
    AnswersFreshExactly(web, indexes, loads, k);
    forall j: nat | j < k && Leads(web, indexes, loads, KeyOf(indexes[loads[k].index], loads[k]), j)
      ensures Shares(indexes, loads[k]) ==> FreshOf(web, indexes, loads[j]) == FreshOf(web, indexes, loads[k])
    {
      assert Shares(indexes, loads[k]) ==> SameShared(indexes, loads[j], loads[k]);
    }
  }

  predicate OwnForm(indexes: seq<Index>, l: Load)
    requires Made(indexes, l)
  {
    indexes[l.index].HTTP? && Shares(indexes, l) ==> !IsLocal(l.server)
  }

  /** Loads agree when no HTTP index with the shared cache is given a local directory: the
      two kinds of index then never share a key. */
  lemma {:induction false} OwnFormAgrees(web: Web, indexes: seq<Index>, loads: seq<Load>)
    requires forall i :: 0 <= i < |loads| ==> Made(indexes, loads[i]) && OwnForm(indexes, loads[i])
    ensures Agreeing(web, indexes, loads)
  {
  }

  /** Given one, they need not: after a file index has loaded a directory, an HTTP index
      with the same cache answers from it, so with a fresh load exactly when the server
      gives the same manifest over HTTP. */
  lemma {:induction false} DirectoryOverHTTP(web: Web, server: string, lv: string, namespace: string)
    requires NulFree(server) && IsLocal(server)
    requires FreshBy(web, Key(server, namespace, LuaVersion(lv)), true).Just?
    ensures
      var indexes := [File(server, lv, true), HTTP(lv, true)];
      var loads := [Load(0, server, namespace), Load(1, server, namespace)];
      && Made(indexes, loads[0]) && Made(indexes, loads[1])
      && (AnswerTo(web, indexes, CachesAfter(web, indexes, loads[..1]), loads[1]).result
            == FreshOf(web, indexes, loads[1])
          <==> FreshOf(web, indexes, loads[1]) == FreshOf(web, indexes, loads[0]))
  {
    var indexes := [File(server, lv, true), HTTP(lv, true)];
    var loads := [Load(0, server, namespace), Load(1, server, namespace)];
    assert loads[..1][..0] == [];
  }

  lemma {:induction false} CachedGrows(found: Maybe<RemoteManifest>, key: Key, memoKey: string, memo: Memo,
                                       shared: Maybe<Shared>)
    ensures
      var a := Cached(found, key, memoKey, memo, shared);
      && memo.Keys <= a.memo.Keys
      && (shared.Just? ==> a.shared.Just? && shared.value.Keys <= a.shared.value.Keys)
      && (a.decoded ==> memoKey !in memo && memoKey in a.memo
                        && (shared.Just? ==> key !in shared.value && key in a.shared.value))
  {
  }

  ghost predicate Within(a: Caches, b: Caches) {
    && |a.memos| == |b.memos| && a.shared.Keys <= b.shared.Keys
    && forall i :: 0 <= i < |a.memos| ==> a.memos[i].Keys <= b.memos[i].Keys
  }

  lemma {:induction false} NextGrows(web: Web, indexes: seq<Index>, c: Caches, l: Load)
    requires Made(indexes, l) && |c.memos| == |indexes|
    ensures Within(c, NextCaches(web, indexes, c, l))
  {
    var ix := indexes[l.index];
    CachedGrows(FreshOf(web, indexes, l), KeyOf(ix, l), MemoKeyOf(ix, l), c.memos[l.index],
                if ix.sharing then Just(c.shared) else Nothing);
  }

  /** What was cached stays cached, in the memo of its index and in the shared cache. */
  lemma {:induction false} CachesGrow(states: seq<Caches>, j: nat, k: nat)
    requires j <= k < |states| && forall i :: 0 <= i < |states| - 1 ==> Within(states[i], states[i + 1])
    ensures Within(states[j], states[k])
  {
    if j < k {
      CachesGrow(states, j, k - 1);
      WithinTransitive(states[j], states[k - 1], states[k]);
    }
  }

  lemma WithinTransitive(a: Caches, b: Caches, c: Caches)
    requires Within(a, b) && Within(b, c)
    ensures Within(a, c)
  {
  }

  lemma {:induction false} GrowOne(web: Web, indexes: seq<Index>, loads: seq<Load>, k: nat)
    requires k < |loads| && AllMade(indexes, loads)
    ensures Within(CachesAfter(web, indexes, loads[..k]), CachesAfter(web, indexes, loads[..k + 1]))
  {
    AfterOne(web, indexes, loads, k);
    NextGrows(web, indexes, CachesAfter(web, indexes, loads[..k]), loads[k]);
  }

  lemma {:induction false} AfterOne(web: Web, indexes: seq<Index>, loads: seq<Load>, k: nat)
    requires k < |loads| && AllMade(indexes, loads)
    ensures CachesAfter(web, indexes, loads[..k + 1])
         == NextCaches(web, indexes, CachesAfter(web, indexes, loads[..k]), loads[k])
  {
    assert loads[..k + 1][..k] == loads[..k];
  }

  lemma {:induction false} GrowAll(web: Web, indexes: seq<Index>, loads: seq<Load>, j: nat, k: nat)
    requires j <= k <= |loads| && AllMade(indexes, loads)
    ensures Within(CachesAfter(web, indexes, loads[..j]), CachesAfter(web, indexes, loads[..k]))
  {
    var states := seq(|loads| + 1, i requires 0 <= i <= |loads| => CachesAfter(web, indexes, loads[..i]));
    forall i | 0 <= i < |states| - 1 ensures Within(states[i], states[i + 1]) {
      GrowOne(web, indexes, loads, i);
    }
    CachesGrow(states, j, k);
  }

  /** The caches that a decoding load leaves hold what it decoded, and those it found did
      not. */
  lemma {:induction false} DecodedIsNew(web: Web, indexes: seq<Index>, c: Caches, l: Load)
    requires Made(indexes, l) && |c.memos| == |indexes| && AnswerTo(web, indexes, c, l).decoded
    ensures
      var ix, r := indexes[l.index], NextCaches(web, indexes, c, l);
      && MemoKeyOf(ix, l) !in c.memos[l.index] && MemoKeyOf(ix, l) in r.memos[l.index]
      && (ix.sharing ==> KeyOf(ix, l) !in c.shared && KeyOf(ix, l) in r.shared)
  {
    var ix := indexes[l.index];
    CachedGrows(FreshOf(web, indexes, l), KeyOf(ix, l), MemoKeyOf(ix, l), c.memos[l.index],
                if ix.sharing then Just(c.shared) else Nothing);
  }

  /** Two loads that both decode have different keys when they go through one index or
      through two that share the cache. */
  lemma {:induction false} DecodedOnce(web: Web, indexes: seq<Index>, loads: seq<Load>, j: nat, k: nat)
    requires j < k < |loads| && AllMade(indexes, loads)
    requires Decodes(web, indexes, loads, j) && Decodes(web, indexes, loads, k)
    ensures
      var a, b := indexes[loads[j].index], indexes[loads[k].index];
      KeyOf(a, loads[j]) == KeyOf(b, loads[k]) ==> loads[j].index != loads[k].index && !(a.sharing && b.sharing)
  {
    AfterOne(web, indexes, loads, j);
    DecodedIsNew(web, indexes, CachesAfter(web, indexes, loads[..j]), loads[j]);
    DecodedIsNew(web, indexes, CachesAfter(web, indexes, loads[..k]), loads[k]);
    GrowAll(web, indexes, loads, j + 1, k);
  }
}
