/** manif/store.go: the rock_manifest of one installed version as a Lua table and as a
    file. */
module RockManifestStore {
  import opened Text
  import opened LuaValue
  import opened LuaText
  import opened LuaGrammar
  import opened LuaRoundTrip
  import opened LuaFaithful
  import opened Rocks
  import opened Tables
  import opened PathTree

  predicate IsDirName(k: string) {
    k == "lua" || k == "lib" || k == "bin" || k == "conf" || k == "doc"
  }

  /** The files of one directory of the rock. */
  function DirOf(rm: RockManifest, name: string): map<string, string>
    requires IsDirName(name)
  {
    if name == "lua" then rm.lua
    else if name == "lib" then rm.lib
    else if name == "bin" then rm.bin
    else if name == "conf" then rm.conf
    else rm.doc
  }

  const LEGACY_ROCKSPEC_KEY := "rockspec"

  /** The key the rockspec's checksum is stored under. */
  function RockspecKey(rm: RockManifest): string {
    if rm.rockspecFile == "" then LEGACY_ROCKSPEC_KEY else rm.rockspecFile
  }

  // ---- rock manifest to table ----------------------------------------------

  const DIR_NAMES: set<string> := {"lua", "lib", "bin", "conf", "doc"}

  /** The directory k has files and is one of those written. */
  predicate Written(rm: RockManifest, dirs: set<string>, k: string) {
    k in dirs && IsDirName(k) && DirOf(rm, k) != map[]
  }

  /** t is what rockManifestToTable can have built when it has added dirs. */
  ghost predicate TableSoFar(rm: RockManifest, dirs: set<string>, t: map<string, Value>) {
    && (forall k :: k in t <==> Written(rm, dirs, k) || (rm.rockspec != "" && k == RockspecKey(rm)))
    && (forall k :: k in t ==>
         if Written(rm, dirs, k) then IsMap(t[k]) && Folds(DirOf(rm, k), t[k].rec)
         else t[k] == Str(rm.rockspec))
  }

  /** t is what rockManifestToTable can return for rm. */
  ghost predicate TableOf(rm: RockManifest, t: map<string, Value>) {
    TableSoFar(rm, DIR_NAMES, t)
  }

  /** The leaves of a folded file set are its files, when none lies under another. */
  lemma {:induction false} FoldedLeaves(m: map<string, string>, rec: map<string, Value>, path: string, md5: string)
    requires Folds(m, rec) && PrefixFree(m)
    ensures LeafAt(rec, Split(path), Str(md5)) <==> path in m && m[path] == md5
  {
    var order: seq<string> :| Orders(order, m) && rec == Fold(m, order);
    if LeafAt(rec, Split(path), Str(md5)) {
      var i := FoldLeafFrom(m, order, Split(path), Str(md5));
      assert order[i] in order && path == Join(Split(path)) == Join(Split(order[i])) == order[i];
    }
    if path in m { FoldLeaves(m, order, path); }
  }

  /** The file stands in the table's tree under this name. */
  ghost predicate FileIn(t: map<string, Value>, dir: string, path: string, md5: string) {
    dir in t && IsMap(t[dir]) && LeafAt(t[dir].rec, Split(path), Str(md5))
  }

  lemma {:induction false} DirMeaning(rm: RockManifest, t: map<string, Value>, dir: string, path: string, md5: string)
    requires TableOf(rm, t) && IsDirName(dir) && RockspecKey(rm) != dir && PrefixFree(DirOf(rm, dir))
    ensures FileIn(t, dir, path, md5) <==> path in DirOf(rm, dir) && DirOf(rm, dir)[path] == md5
  {
    if dir in t { FoldedLeaves(DirOf(rm, dir), t[dir].rec, path, md5); }
  }

  /** What the table says: the rockspec's checksum under its file name, or under "rockspec"
      when none is known, and every file of the five directories as a leaf at its path. */
  lemma {:induction false} TableMeaning(rm: RockManifest, t: map<string, Value>, path: string, md5: string)
    requires TableOf(rm, t) && !IsDirName(rm.rockspecFile)
    requires forall k :: IsDirName(k) ==> PrefixFree(DirOf(rm, k))
    ensures rm.rockspec != "" ==>
      var key := if rm.rockspecFile == "" then "rockspec" else rm.rockspecFile;
      key in t && t[key] == Str(rm.rockspec)
    ensures FileIn(t, "lua", path, md5) <==> path in rm.lua && rm.lua[path] == md5
    ensures FileIn(t, "lib", path, md5) <==> path in rm.lib && rm.lib[path] == md5
    ensures FileIn(t, "bin", path, md5) <==> path in rm.bin && rm.bin[path] == md5
    ensures FileIn(t, "conf", path, md5) <==> path in rm.conf && rm.conf[path] == md5
    ensures FileIn(t, "doc", path, md5) <==> path in rm.doc && rm.doc[path] == md5
  {
    DirMeaning(rm, t, "lua", path, md5);
    DirMeaning(rm, t, "lib", path, md5);
    DirMeaning(rm, t, "bin", path, md5);
    DirMeaning(rm, t, "conf", path, md5);
    DirMeaning(rm, t, "doc", path, md5);
  }

  /** The addDir closure. */
  method AddDir(ghost rm: RockManifest, ghost dirs: set<string>, out: map<string, Value>,
                name: string, m: map<string, string>)
    returns (r: map<string, Value>)
    requires IsDirName(name) && m == DirOf(rm, name) && TableSoFar(rm, dirs, out)
    ensures TableSoFar(rm, dirs + {name}, r)
  {
    r := out;
    forall k ensures Written(rm, dirs + {name}, k) <==> Written(rm, dirs, k) || (k == name && m != map[]) {
    }
    if m != map[] {
      var nested := StringMapToNested(m);
      r := r[name := MapOf(nested)];
    }
  }

  method RockManifestToTable(rm: RockManifest) returns (out: map<string, Value>)
    ensures TableOf(rm, out)
  {
    out := map[];
    if rm.rockspec != "" {
      out := out[RockspecKey(rm) := Str(rm.rockspec)];
    }
    out := AddDir(rm, {}, out, "lua", rm.lua);
    out := AddDir(rm, {"lua"}, out, "lib", rm.lib);
    out := AddDir(rm, {"lua", "lib"}, out, "bin", rm.bin);
    out := AddDir(rm, {"lua", "lib", "bin"}, out, "conf", rm.conf);
    out := AddDir(rm, {"lua", "lib", "bin", "conf"}, out, "doc", rm.doc);
  }

  // ---- table to rock manifest ----------------------------------------------

  predicate IsRockspecKey(k: string) {
    k == LEGACY_ROCKSPEC_KEY || HasSuffix(k, ".rockspec")
  }

  /** Some rockspec key of t, whichever the loop meets first, gave this result. */
  ghost predicate ReadsRockspec(t: map<string, Value>, md5: string, file: string) {
    if exists k :: k in t && IsRockspecKey(k) then
      exists k :: k in t && IsRockspecKey(k) && t[k] == Str(md5)
                  && file == if k == LEGACY_ROCKSPEC_KEY then "" else k
    else md5 == "" && file == ""
  }

  ghost predicate ReadsDir(t: map<string, Value>, show: Value -> string, name: string, m: map<string, string>) {
    if name in t then IsMap(t[name]) && Flattens(t[name].rec, show, m) else m == map[]
  }

  /** rm is what rockManifestFromTable can return for t. */
  ghost predicate Reads(t: map<string, Value>, show: Value -> string, rm: RockManifest) {
    && ReadsRockspec(t, rm.rockspec, rm.rockspecFile)
    && forall k :: IsDirName(k) ==> ReadsDir(t, show, k, DirOf(rm, k))
  }

  /** t gives rockManifestFromTable a reason to fail. */
  ghost predicate CanFail(t: map<string, Value>) {
    || (exists k :: k in t && IsRockspecKey(k) && !t[k].Str?)
    || (exists k :: k in t && IsDirName(k) && !IsMap(t[k]))
  }

  /** The loop over all keys that stops at the first rockspec key. */
  method FindRockspec(t: map<string, Value>) returns (ok: bool, md5: string, file: string)
    ensures ok ==> ReadsRockspec(t, md5, file)
    ensures !ok ==> exists k :: k in t && IsRockspecKey(k) && !t[k].Str?
  {
    var left := t.Keys;
    while left != {}
      invariant left <= t.Keys
      invariant forall k :: k in t && k !in left ==> !IsRockspecKey(k)
      decreases |left|
    {
      var key :| key in left;
      left := left - {key};
      if key == LEGACY_ROCKSPEC_KEY || HasSuffix(key, ".rockspec") {
        if !t[key].Str? {
          return false, "", "";
        }
        file := "";
        if key != LEGACY_ROCKSPEC_KEY {
          file := key;
        }
        return true, t[key].s, file;
      }
    }
    return true, "", "";
  }

  method LoadDir(t: map<string, Value>, name: string, show: Value -> string) returns (r: Maybe<map<string, string>>)
    ensures r.Just? ==> ReadsDir(t, show, name, r.value)
    ensures r.Nothing? ==> name in t && !IsMap(t[name])
  {
    r := Just(map[]);
    if name in t {
      if !IsMap(t[name]) {
        return Nothing;
      }
      var m := FlattenNested("", t[name], map[], show);
      r := Just(m);
    }
  }

  method RockManifestFromTable(t: map<string, Value>, show: Value -> string) returns (r: Maybe<RockManifest>)
    ensures r.Just? ==> Reads(t, show, r.value)
    ensures r.Nothing? ==> CanFail(t)
  {
    var ok, md5, file := FindRockspec(t);
    if !ok {
      return Nothing;
    }
    var lua := LoadDir(t, "lua", show);
    var lib := LoadDir(t, "lib", show);
    var bin := LoadDir(t, "bin", show);
    var conf := LoadDir(t, "conf", show);
    var doc := LoadDir(t, "doc", show);
    if lua.Nothing? || lib.Nothing? || bin.Nothing? || conf.Nothing? || doc.Nothing? {
      assert exists k :: k in t && IsDirName(k) && !IsMap(t[k]);
      return Nothing;
    }
    return Just(RockManifest(md5, file, lua.value, lib.value, bin.value, conf.value, doc.value));
  }

  // ---- round trip ----------------------------------------------------------

  /** A recorded rockspec has a ".rockspec" file name or none, an unrecorded one none. */
  predicate RockspecKept(rm: RockManifest) {
    rm.rockspecFile == "" || (rm.rockspec != "" && HasSuffix(rm.rockspecFile, ".rockspec"))
  }

  ghost predicate DirsFoldable(rm: RockManifest) {
    forall k :: IsDirName(k) ==> Foldable(DirOf(rm, k))
  }

  lemma DirsDiffer(a: RockManifest, b: RockManifest)
    requires forall k :: IsDirName(k) ==> DirOf(a, k) == DirOf(b, k)
    ensures a == b.(rockspec := a.rockspec, rockspecFile := a.rockspecFile)
  {
    assert DirOf(a, "lua") == DirOf(b, "lua") && DirOf(a, "lib") == DirOf(b, "lib");
    assert DirOf(a, "bin") == DirOf(b, "bin") && DirOf(a, "conf") == DirOf(b, "conf");
    assert DirOf(a, "doc") == DirOf(b, "doc");
  }

  /** No directory name can be taken for a rockspec. */
  lemma DirIsNoRockspec(k: string)
    requires IsDirName(k)
    ensures !IsRockspecKey(k)
  {
    assert |k| < |".rockspec"|;
  }

  lemma {:induction false} RockspecBack(rm: RockManifest, t: map<string, Value>, md5: string, file: string)
    requires TableOf(rm, t) && ReadsRockspec(t, md5, file)
    ensures md5 == rm.rockspec && file == rm.rockspecFile <==> RockspecKept(rm)
  {
    var key := RockspecKey(rm);
    forall k | k in t && IsRockspecKey(k) ensures k == key && t[k] == Str(rm.rockspec) && rm.rockspec != "" {
      if IsDirName(k) { DirIsNoRockspec(k); }
    }
    if key in t && IsRockspecKey(key) {
      assert md5 == rm.rockspec && file == if key == LEGACY_ROCKSPEC_KEY then "" else key;
    } else {
      assert md5 == "" && file == "";
    }
    if IsDirName(key) { DirIsNoRockspec(key); }
    assert !HasSuffix(LEGACY_ROCKSPEC_KEY, ".rockspec");
  }

  lemma {:induction false} EmptyDir(m: map<string, string>)
    requires m == map[]
    ensures Foldable(m)
  {
  }

  lemma {:induction false} DirBack(rm: RockManifest, t: map<string, Value>, show: Value -> string, k: string,
                                   m: map<string, string>)
    requires TableOf(rm, t) && IsDirName(k) && ReadsDir(t, show, k, m)
    ensures m == DirOf(rm, k) <==> Foldable(DirOf(rm, k))
  {
    if DirOf(rm, k) != map[] {
      FoldThenFlatten(DirOf(rm, k), t[k].rec, show, m);
    } else {
      EmptyDir(DirOf(rm, k));
    }
  }

  /** rockManifestFromTable undoes rockManifestToTable, in whatever order they visit
      their maps, exactly when every directory can be folded and the rockspec's file
      name is one it looks for. */
  lemma {:induction false} RockManifestBack(rm: RockManifest, t: map<string, Value>, show: Value -> string,
                                            back: RockManifest)
    requires TableOf(rm, t) && Reads(t, show, back)
    ensures back == rm <==> RockspecKept(rm) && DirsFoldable(rm)
  {
    RockspecBack(rm, t, back.rockspec, back.rockspecFile);
    forall k | IsDirName(k) ensures DirOf(back, k) == DirOf(rm, k) <==> Foldable(DirOf(rm, k)) {
      DirBack(rm, t, show, k, DirOf(back, k));
    }
    if RockspecKept(rm) && DirsFoldable(rm) {
      DirsDiffer(back, rm);
    }
  }

  /** Such a manifest is never refused. */
  lemma {:induction false} KeptIsAccepted(rm: RockManifest, t: map<string, Value>)
    requires TableOf(rm, t) && RockspecKept(rm)
    ensures !CanFail(t)
  {
    forall k | k in t && IsRockspecKey(k) ensures t[k].Str? {
      if IsDirName(k) { DirIsNoRockspec(k); }
    }
    forall k | k in t && IsDirName(k) ensures IsMap(t[k]) {
      DirIsNoRockspec(k);
    }
  }

  // ---- files ---------------------------------------------------------------

  ghost predicate CleanRock(rm: RockManifest) {
    && NoReturn(rm.rockspec) && NoReturn(rm.rockspecFile)
    && forall k :: IsDirName(k) ==> NoReturns(DirOf(rm, k))
  }

  /** Values that a write and a read keep. */
  ghost predicate Survives(v: Value) {
    Readable(v) && Faithful(v)
  }

  ghost predicate EntriesSurvive(rec: map<string, Value>) {
    forall k :: k in rec ==> NoReturn(k) && Survives(rec[k])
  }

  lemma {:induction false} MapSurvives(rec: map<string, Value>)
    ensures Survives(MapOf(rec)) <==> EntriesSurvive(rec)
  {
  }

  lemma {:induction false} InsertSurvives(rec: map<string, Value>, ps: seq<string>, md5: string)
    requires EntriesSurvive(rec) && NoReturn(md5) && ps != [] && forall i :: 0 <= i < |ps| ==> NoReturn(ps[i])
    ensures EntriesSurvive(Insert(rec, ps, md5))
    decreases |ps|
  {
    if |ps| > 1 {
      var next := if ps[0] in rec && IsMap(rec[ps[0]]) then rec[ps[0]].rec else map[];
      if ps[0] in rec && IsMap(rec[ps[0]]) {
        assert rec[ps[0]] == MapOf(next);
        MapSurvives(next);
      }
      InsertSurvives(next, ps[1..], md5);
      MapSurvives(Insert(next, ps[1..], md5));
    }
  }

  lemma {:induction false} SplitKeeps(path: string)
    requires NoReturn(path)
    ensures forall i :: 0 <= i < |Split(path)| ==> NoReturn(Split(path)[i])
  {
    if path != "" {
      SplitKeeps(path[1..]);
    }
  }

  lemma {:induction false} FoldSurvives(m: map<string, string>, order: seq<string>)
    requires NoReturns(m) && forall i :: 0 <= i < |order| ==> order[i] in m
    ensures EntriesSurvive(Fold(m, order))
  {
    if order != [] {
      var init, path := order[..|order| - 1], order[|order| - 1];
      FoldSurvives(m, init);
      SplitKeeps(path);
      InsertSurvives(Fold(m, init), Split(path), m[path]);
    }
  }

  lemma {:induction false} DirSurvives(m: map<string, string>, v: Value)
    requires NoReturns(m) && IsMap(v) && Folds(m, v.rec)
    ensures Survives(v)
  {
    var order: seq<string> :| Orders(order, m) && v.rec == Fold(m, order);
    FoldSurvives(m, order);
    MapSurvives(v.rec);
    assert v == MapOf(v.rec);
  }

  lemma {:induction false} TableSurvives(rm: RockManifest, t: map<string, Value>)
    requires CleanRock(rm) && TableOf(rm, t)
    ensures EntriesSurvive(t)
  {
    forall k | k in t ensures NoReturn(k) && Survives(t[k]) {
      if Written(rm, DIR_NAMES, k) {
        DirSurvives(DirOf(rm, k), t[k]);
        assert k in DIR_NAMES;
      }
    }
  }

  lemma {:induction false} OneFieldSurvives(key: string, v: Value)
    requires NoReturn(key) && Survives(v)
    ensures Survives(MapOf(map[key := v]))
  {
    MapSurvives(map[key := v]);
  }

  /** The table FileStore.WriteRock writes. */
  function RockFileTable(t: map<string, Value>): (v: Value)
    ensures Writable(v)
  {
    assert IsPlainKey("rock_manifest");
    MapOf(map["rock_manifest" := MapOf(t)])
  }

  /** The table FileStore.ReadRock hands to rockManifestFromTable. */
  function ReadRock(text: string): Maybe<map<string, Value>> {
    var r := Read(text);
    if r.Ok? && IsMap(r.value) && "rock_manifest" in r.value.rec && IsMap(r.value.rec["rock_manifest"])
    then Just(r.value.rec["rock_manifest"].rec) else Nothing
  }

  /** A rock_manifest file read back: the table is the one that was written. */
  lemma {:induction false} RockFileBack(rm: RockManifest, t: map<string, Value>)
    requires CleanRock(rm) && TableOf(rm, t)
    ensures ReadRock(FileText(RockFileTable(t))) == Just(t)
  {
    TableSurvives(rm, t);
    MapSurvives(t);
    OneFieldSurvives("rock_manifest", MapOf(t));
    WriteThenRead(RockFileTable(t));
  }

  /** WriteRock then ReadRock, for every clean rock manifest with foldable directories:
      never an error, and the same manifest. */
  lemma {:induction false} RockManifestSurvives(rm: RockManifest, t: map<string, Value>, show: Value -> string,
                                                back: RockManifest)
    requires CleanRock(rm) && RockspecKept(rm) && DirsFoldable(rm) && TableOf(rm, t)
    ensures var read := ReadRock(FileText(RockFileTable(t)));
      && read.Just? && !CanFail(read.value)
      && (Reads(read.value, show, back) ==> back == rm)
  {
    RockFileBack(rm, t);
    KeptIsAccepted(rm, t);
    if Reads(t, show, back) { RockManifestBack(rm, t, show, back); }
  }
}
