/** remote/remote.go and remote/file.go: the manifest of one rock server, and how the
    artifact of a version is chosen and located. */
module RemoteManifests {
  import opened Text
  import opened LuaValue
  import opened Tables
  import opened ConstraintStore
  import opened Rocks
  import opened Versions
  import SortedKeys

  /** Rock name to version string to the arches it is offered for, in manifest order. */
  datatype RemoteManifest = RemoteManifest(server: string, repository: map<string, map<string, seq<string>>>)

  // ---- decoding ------------------------------------------------------------

  function ArchFrom(v: Value): Maybe<string> {
    if IsMap(v) then Just(StringAt(v.rec, "arch")) else Nothing
  }

  /** toArchArr: an array of entries, or one entry on its own. */
  function ArchesFrom(v: Value): Maybe<seq<string>> {
    if IsArray(v) then LoadSeq(Elements(v), ArchFrom)
    else if IsMap(v) then Just([StringAt(v.rec, "arch")])
    else Nothing
  }

  function OffersFrom(v: Value): Maybe<map<string, seq<string>>> {
    if IsMap(v) then LoadMap(v.rec, ArchesFrom) else Nothing
  }

  /** projectManifest */
  function Project(server: string, raw: map<string, Value>): Maybe<RemoteManifest> {
    if "repository" !in raw || !IsMap(raw["repository"]) then Nothing
    else
      var r := LoadMap(raw["repository"].rec, OffersFrom);
      if r.Nothing? then Nothing else Just(RemoteManifest(server, r.value))
  }

  // ---- accepted arches -----------------------------------------------------

  /** The default query arch set: the pseudo-arches and the host's own. */
  predicate Accepted(arch: string, host: string) {
    arch == "src" || arch == "all" || arch == "rockspec" || arch == "installed" || arch == host
  }

  function AcceptedArches(arches: seq<string>, host: string): (r: seq<string>)
    ensures forall a :: a in r <==> a in arches && Accepted(a, host)
  {
    if arches == [] then [] else
      var init := AcceptedArches(arches[..|arches| - 1], host);
      assert arches == arches[..|arches| - 1] + [arches[|arches| - 1]];
      if Accepted(arches[|arches| - 1], host) then init + [arches[|arches| - 1]] else init
  }

  method FilterArches(arches: seq<string>, host: string) returns (out: seq<string>)
    ensures out == AcceptedArches(arches, host)
  {
    out := [];
    for i := 0 to |arches|
      invariant out == AcceptedArches(arches[..i], host)
    {
      assert arches[..i + 1][..i] == arches[..i];
      if Accepted(arches[i], host) {
        out := out + [arches[i]];
      }
    }
    assert arches[..|arches|] == arches;
  }

  // ---- picking among the offerings of one version --------------------------

  predicate IsBinary(arch: string) {
    arch != "src" && arch != "rockspec"
  }

  predicate Displaces(arch: string, picked: string) {
    (arch == "src" && picked == "rockspec") || IsBinary(arch)
  }

  /** The index both pickMergedItem and pickLatestVersion choose. */
  function PickIndex(arches: seq<string>): (p: nat)
    requires arches != []
    ensures p < |arches|
  {
    var n := |arches| - 1;
    if n == 0 then 0 else
      var p := PickIndex(arches[..n]);
      if Displaces(arches[n], arches[p]) then n else p
  }

  /** The last binary rock; without one the first source rock; without that the first
      offering. */
  lemma {:induction false} PickMeaning(arches: seq<string>)
    requires arches != []
    ensures
      var p := PickIndex(arches);
      if exists i :: 0 <= i < |arches| && IsBinary(arches[i])
      then IsBinary(arches[p]) && forall i :: p < i < |arches| ==> !IsBinary(arches[i])
      else if exists i :: 0 <= i < |arches| && arches[i] == "src"
      then arches[p] == "src" && forall i :: 0 <= i < p ==> arches[i] != "src"
      else p == 0
  {
    var n := |arches| - 1;
    if n > 0 {
      var init := arches[..n];
      PickMeaning(init);
      assert forall i :: 0 <= i < n ==> arches[i] == init[i];
    }
  }

  // ---- merged offerings ----------------------------------------------------

  /** One (server, arch) offering of a version. */
  datatype Item = Item(server: string, arch: string)

  function Arches(items: seq<Item>): (r: seq<string>)
    ensures |r| == |items| && forall i :: 0 <= i < |items| ==> r[i] == items[i].arch
  {
    seq(|items|, i requires 0 <= i < |items| => items[i].arch)
  }

  method PickMergedItem(items: seq<Item>) returns (pick: nat)
    requires items != []
    ensures pick == PickIndex(Arches(items))
  {
    pick := 0;
    ghost var all := Arches(items);
    for i := 0 to |items|
      invariant pick < |items|
      invariant if i == 0 then pick == 0 else pick == PickIndex(all[..i])
    {
      assert i > 0 ==> all[..i + 1][..i] == all[..i];
      if Displaces(items[i].arch, items[pick].arch) {
        pick := i;
      }
    }
    assert all[..|items|] == all;
  }

  type Offers = map<string, seq<Item>>

  function ItemsOf(server: string, arches: seq<string>): (r: seq<Item>)
    ensures |r| == |arches| && forall i :: 0 <= i < |arches| ==> r[i] == Item(server, arches[i])
  {
    seq(|arches|, i requires 0 <= i < |arches| => Item(server, arches[i]))
  }

  function ItemsAt(merged: Offers, version: string): seq<Item> {
    if version in merged then merged[version] else []
  }

  function VersionsOf(m: RemoteManifest, name: string): map<string, seq<string>> {
    if name in m.repository then m.repository[name] else map[]
  }

  /** The offerings of a version when a server's versions in done have been added. */
  function ItemsWith(merged: Offers, server: string, versions: map<string, seq<string>>, done: set<string>,
                     host: string, v: string): seq<Item>
  {
    ItemsAt(merged, v)
    + if v in done && v in versions then ItemsOf(server, AcceptedArches(versions[v], host)) else []
  }

  /** The offerings with some of a server's versions; versions without any are absent. */
  function MergeSome(merged: Offers, server: string, versions: map<string, seq<string>>, done: set<string>,
                     host: string): Offers
  {
    map v | v in merged.Keys + done && ItemsWith(merged, server, versions, done, host, v) != []
      :: ItemsWith(merged, server, versions, done, host, v)
  }

  function Merge(merged: Offers, m: RemoteManifest, server: string, name: string, host: string): (r: Offers)
    ensures NonEmpty(r)
  {
    var versions := VersionsOf(m, name);
    MergeSome(merged, server, versions, versions.Keys, host)
  }

  predicate NonEmpty(merged: Offers) {
    forall v :: v in merged ==> merged[v] != []
  }

  lemma {:induction false} BeforeAt(merged: Offers, server: string, versions: map<string, seq<string>>,
                                    done: set<string>, host: string, v: string)
    requires v !in done
    ensures ItemsAt(MergeSome(merged, server, versions, done, host), v) == ItemsAt(merged, v)
  {
    assert ItemsWith(merged, server, versions, done, host, v) == ItemsAt(merged, v);
  }

  lemma {:induction false} MergeOne(merged: Offers, server: string, versions: map<string, seq<string>>,
                                    done: set<string>, host: string, v: string)
    requires v in versions && v !in done
    ensures
      var before, items := MergeSome(merged, server, versions, done, host),
                           ItemsOf(server, AcceptedArches(versions[v], host));
      MergeSome(merged, server, versions, done + {v}, host)
      == if items == [] then before else before[v := ItemsAt(before, v) + items]
  {
    var before, after := MergeSome(merged, server, versions, done, host),
                         MergeSome(merged, server, versions, done + {v}, host);
    var items := ItemsOf(server, AcceptedArches(versions[v], host));
    BeforeAt(merged, server, versions, done, host, v);
    assert ItemsWith(merged, server, versions, done + {v}, host, v) == ItemsAt(merged, v) + items;
    var want := if items == [] then before else before[v := ItemsAt(before, v) + items];
    forall w ensures (w in after <==> w in want) && (w in after ==> after[w] == want[w]) {
      if w != v {
        assert ItemsWith(merged, server, versions, done + {v}, host, w)
            == ItemsWith(merged, server, versions, done, host, w);
      }
    }
    SameOffers(after, want);
  }

  lemma SameOffers(a: Offers, b: Offers)
    requires forall k :: k in a <==> k in b
    requires forall k :: k in a ==> a[k] == b[k]
    ensures a == b
  {
  }

  lemma {:induction false} MergeNone(merged: Offers, server: string, versions: map<string, seq<string>>, host: string)
    requires NonEmpty(merged)
    ensures MergeSome(merged, server, versions, {}, host) == merged
  {
    SameOffers(MergeSome(merged, server, versions, {}, host), merged);
  }

  lemma OneLess(all: set<string>, left: set<string>, v: string)
    requires left <= all && v in left
    ensures all - left + {v} == all - (left - {v})
  {
  }

  /** The loops of Query over one server's versions and their arches. */
  method MergeServer(merged: Offers, m: RemoteManifest, server: string, name: string, host: string) returns (out: Offers)
    requires NonEmpty(merged)
    ensures out == Merge(merged, m, server, name, host)
  {
    out := merged;
    var versions := VersionsOf(m, name);
    var left := versions.Keys;
    MergeNone(merged, server, versions, host);
    assert versions.Keys - left == {};
    while left != {}
      invariant left <= versions.Keys
      invariant out == MergeSome(merged, server, versions, versions.Keys - left, host)
      decreases |left|
    {
      var v :| v in left;
      MergeOne(merged, server, versions, versions.Keys - left, host, v);
      OneLess(versions.Keys, left, v);
      var arches := FilterArches(versions[v], host);
      var items := ItemsOf(server, arches);
      if |items| > 0 {
        out := out[v := ItemsAt(out, v) + items];
      }
      left := left - {v};
    }
    assert versions.Keys - {} == versions.Keys;
  }

  // ---- rows ----------------------------------------------------------------

  /** The row of one version, when its key parses. */
  function RowOf(name: string, version: string, items: seq<Item>, url: (Item, string, string) -> string): seq<VersionedRock>
    requires items != []
  {
    var v := Parse(version);
    if v.Bad? then []
    else [VersionedRock(name, v.value, url(items[PickIndex(Arches(items))], name, version), Nothing)]
  }

  /** mergedRocks, over the version keys in the order given. */
  function RowsOf(name: string, versions: seq<string>, merged: Offers, url: (Item, string, string) -> string): seq<VersionedRock>
    requires forall v :: v in versions ==> v in merged && merged[v] != []
  {
    if versions == [] then [] else
      var n := |versions| - 1;
      assert versions[n] in versions;
      RowsOf(name, versions[..n], merged, url) + RowOf(name, versions[n], merged[versions[n]], url)
  }

  /** mergedRocks: one row for each version that parses, in the order of the keys. */
  function MergedRocks(name: string, merged: Offers, url: (Item, string, string) -> string): seq<VersionedRock>
    requires NonEmpty(merged)
  {
    RowsOf(name, SortedKeys.Strings(merged.Keys), merged, url)
  }

  method MakeRow(name: string, version: string, items: seq<Item>, url: (Item, string, string) -> string)
    returns (row: seq<VersionedRock>)
    requires items != []
    ensures row == RowOf(name, version, items, url)
    ensures row == [] <==> Parse(version).Bad?
  {
    var v := ParseVersion(version);
    if v.Bad? {
      return [];
    }
    var pick := PickMergedItem(items);
    return [VersionedRock(name, v.value, url(items[pick], name, version), Nothing)];
  }

  /** Whether some key does not parse. */
  predicate ParseFails(versions: seq<string>) {
    versions != [] && (ParseFails(versions[..|versions| - 1]) || Parse(versions[|versions| - 1]).Bad?)
  }

  lemma {:induction false} RowsStep(name: string, vers: seq<string>, merged: Offers,
                                    url: (Item, string, string) -> string, i: nat)
    requires i < |vers| && forall v :: v in vers ==> v in merged && merged[v] != []
    ensures forall v :: v in vers[..i] || v in vers[..i + 1] ==> v in merged && merged[v] != []
    ensures vers[i] in merged && merged[vers[i]] != []
    ensures RowsOf(name, vers[..i + 1], merged, url)
         == RowsOf(name, vers[..i], merged, url) + RowOf(name, vers[i], merged[vers[i]], url)
    ensures ParseFails(vers[..i + 1]) <==> ParseFails(vers[..i]) || Parse(vers[i]).Bad?
  {
    assert vers[..i + 1][..i] == vers[..i];
    assert vers[i] in vers;
  }

  method MakeRows(name: string, merged: Offers, url: (Item, string, string) -> string)
    returns (out: seq<VersionedRock>, parseFailed: bool)
    requires NonEmpty(merged)
    ensures out == MergedRocks(name, merged, url)
    ensures parseFailed == ParseFails(SortedKeys.Strings(merged.Keys))
  {
    var vers := SortedKeys.Strings(merged.Keys);
    out, parseFailed := [], false;
    for i := 0 to |vers|
      invariant forall v :: v in vers[..i] ==> v in merged && merged[v] != []
      invariant out == RowsOf(name, vers[..i], merged, url)
      invariant parseFailed == ParseFails(vers[..i])
    {
      RowsStep(name, vers, merged, url, i);
      var row := MakeRow(name, vers[i], merged[vers[i]], url);
      parseFailed := parseFailed || |row| == 0;
      out := out + row;
    }
    assert vers[..|vers|] == vers;
  }

  // ---- URLs ----------------------------------------------------------------

  function TrimSlashes(t: string): (r: string)
    ensures |r| <= |t|
  {
    if t != "" && t[|t| - 1] == '/' then TrimSlashes(t[..|t| - 1]) else t
  }

  /** The file of an artifact below its server: path.make_url's three shapes. */
  function ArtifactFile(name: string, version: string, arch: string): string {
    if arch == "rockspec" then name + "-" + version + ".rockspec"
    else if arch == "installed" then name + "/" + version + "/" + name + "-" + version + ".rockspec"
    else name + "-" + version + "." + arch + ".rock"
  }

  function MakeRockURL(server: string, name: string, version: string, arch: string): string {
    TrimSlashes(server) + "/" + ArtifactFile(name, version, arch)
  }

  function LocalRockURL(dir: string, prefix: string, name: string, version: string, arch: string): string {
    prefix + dir + "/" + ArtifactFile(name, version, arch)
  }

  function Lower(c: char): char {
    if 'A' <= c <= 'Z' then (c as int + 32) as char else c
  }

  /** A "file://" prefix in any case. */
  predicate HasFilePrefix(server: string) {
    |server| >= 7 && forall i :: 0 <= i < 7 ==> Lower(server[i]) == "file://"[i]
  }

  /** LocalServerPath */
  function LocalServerPath(server: string): Maybe<string> {
    if server == "" then Nothing
    else if HasFilePrefix(server) then Just(server[7..])
    else if Contains(server, "://") then Nothing
    else Just(server)
  }

  /** artifactURL, and the URL the index of the server's own form makes. */
  function ArtifactURL(server: string, name: string, version: string, arch: string): string {
    var dir := LocalServerPath(server);
    if dir.Just? then LocalRockURL(dir.value, if HasFilePrefix(server) then "file://" else "", name, version, arch)
    else MakeRockURL(server, name, version, arch)
  }

  function ItemURL(item: Item, name: string, version: string): string {
    ArtifactURL(item.server, name, version, item.arch)
  }

  /** The URL an HTTP index makes, whatever the server looks like. */
  function HTTPItemURL(item: Item, name: string, version: string): string {
    MakeRockURL(item.server, name, version, item.arch)
  }

  function URLBy(local: bool): (Item, string, string) -> string {
    if local then ItemURL else HTTPItemURL
  }

  ghost predicate OfServer(merged: Offers, server: string) {
    forall v :: v in merged ==> forall i :: 0 <= i < |merged[v]| ==> merged[v][i].server == server
  }

  /** Both URLs are the same on offerings of a server that is no local directory. */
  lemma {:induction false} SameRows(name: string, versions: seq<string>, merged: Offers, server: string)
    requires forall v :: v in versions ==> v in merged && merged[v] != []
    requires OfServer(merged, server) && LocalServerPath(server).Nothing?
    ensures RowsOf(name, versions, merged, HTTPItemURL) == RowsOf(name, versions, merged, ItemURL)
  {
    if versions != [] {
      var n := |versions| - 1;
      assert versions[n] in versions;
      SameRows(name, versions[..n], merged, server);
    }
  }
}
