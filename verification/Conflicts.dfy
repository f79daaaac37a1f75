/** tree/conflicts.go: who owns a module's plain path, and under which name every other
    rock's file stands. */
module Conflicts {
  import opened Text
  import opened Rocks
  import opened Versions
  import opened ProviderLists

  // ---- names ---------------------------------------------------------------

  /** strings.ReplaceAll on single characters. */
  function Replace(s: string, from: char, to: char): (r: string)
    ensures |r| == |s| && forall i :: 0 <= i < |s| ==> r[i] == if s[i] == from then to else s[i]
  {
    seq(|s|, i requires 0 <= i < |s| => if s[i] == from then to else s[i])
  }

  predicate IsDot(c: char) {
    c == '.'
  }

  predicate IsSlash(c: char) {
    c == '/'
  }

  /** strings.LastIndex for one character. */
  function LastIndex(t: string, c: char): (i: int)
    ensures -1 <= i < |t|
    ensures i >= 0 ==> t[i] == c
    ensures forall j :: i < j < |t| ==> t[j] != c
  {
    if t == "" then -1
    else if t[|t| - 1] == c then |t| - 1
    else LastIndex(t[..|t| - 1], c)
  }

  function DropTrailingDots(t: string): (r: string)
    ensures r == "" || !IsDot(r[|r| - 1])
  {
    if t != "" && IsDot(t[|t| - 1]) then DropTrailingDots(t[..|t| - 1]) else t
  }

  /** strings.Trim(t, ".") */
  function TrimDots(t: string): string {
    DropTrailingDots(t[Run(t, IsDot)..])
  }

  function PathToModule(rel: string): string {
    var i := LastIndex(rel, '.');
    TrimDots(Replace(if i >= 0 then rel[..i] else rel, '/', '.'))
  }

  function MungedVersion(pkg: string, ver: string): string {
    Replace(Replace(pkg + "_" + ver, '-', '_'), '.', '_')
  }

  function MungedPrefix(pkg: string, ver: string): string {
    MungedVersion(pkg, ver) + "-"
  }

  /** What stands behind the deploy directory in a path. */
  function Remainder(deployDir: string, target: string): string {
    var t := if HasPrefix(target, deployDir) then target[|deployDir|..] else target;
    t[Run(t, IsSlash)..]
  }

  function MungedPath(deployDir: string, target: string, pkg: string, ver: string): string {
    deployDir + "/" + (MungedPrefix(pkg, ver) + Remainder(deployDir, target))
  }

  lemma {:induction false} LastIndexIs(t: string, c: char, i: nat)
    requires i < |t| && t[i] == c && forall j :: i < j < |t| ==> t[j] != c
    ensures LastIndex(t, c) == i
  {
  }

  predicate DotFree(t: string) {
    forall i :: 0 <= i < |t| ==> !IsDot(t[i])
  }

  /** The file a module is deployed to names that module again exactly when the module
      name has no slash and no dot at either end. */
  lemma {:induction false} ModuleNameBack(mod: string, ext: string)
    requires DotFree(ext)
    ensures PathToModule(Replace(mod, '.', '/') + ("." + ext)) == mod
        <==> '/' !in mod && !HasPrefix(mod, ".") && !HasSuffix(mod, ".")
  {
    var stem := Replace(mod, '.', '/');
    var rel := stem + ("." + ext);
    LastIndexIs(rel, '.', |stem|);
    assert rel[..|stem|] == stem;
    var name := Replace(stem, '/', '.');
    if '/' !in mod {
      assert name == mod by {
        forall i | 0 <= i < |mod| ensures name[i] == mod[i] {
          assert mod[i] in mod;
        }
      }
      TrimmedIsSame(mod);
    } else {
      var k :| 0 <= k < |mod| && mod[k] == '/';
      TrimmedFrom(name);
      assert name[k] == '.';
    }
  }

  lemma {:induction false} DropTrailingShape(t: string)
    ensures var r := DropTrailingDots(t); |r| <= |t| && r == t[..|r|]
    ensures DropTrailingDots(t) == t <==> !HasSuffix(t, ".")
  {
    if t != "" && IsDot(t[|t| - 1]) {
      DropTrailingShape(t[..|t| - 1]);
    }
  }

  lemma {:induction false} TrimmedFrom(t: string)
    ensures |TrimDots(t)| <= |t|
    ensures |TrimDots(t)| == |t| ==> TrimDots(t) == t
  {
    DropTrailingShape(t[Run(t, IsDot)..]);
  }

  lemma {:induction false} TrimmedIsSame(t: string)
    ensures TrimDots(t) == t <==> !HasPrefix(t, ".") && !HasSuffix(t, ".")
  {
    var u := t[Run(t, IsDot)..];
    DropTrailingShape(u);
    if Run(t, IsDot) == 0 {
      assert u == t;
      assert !HasPrefix(t, ".");
    } else {
      assert |u| < |t| && HasPrefix(t, ".");
    }
  }

  // ---- precedence ----------------------------------------------------------

  predicate VersionGreater(a: string, b: string) {
    var av, bv := Parse(a), Parse(b);
    av.Ok? && bv.Ok? && Compare(av.value, bv.value) > 0
  }

  /** Being greater is a strict order on version strings, and strings that do not parse
      are related to none. */
  lemma {:induction false} GreaterIsStrict(a: string, b: string, c: string)
    ensures VersionGreater(a, b) && VersionGreater(b, c) ==> VersionGreater(a, c)
    ensures !VersionGreater(a, a) && !(VersionGreater(a, b) && VersionGreater(b, a))
    ensures Parse(a).Bad? ==> !VersionGreater(a, b) && !VersionGreater(b, a)
    ensures Parse(a).Ok? && Parse(b).Ok? ==> (VersionGreater(a, b) <==> Compare(Parse(b).value, Parse(a).value) < 0)
  {
    if Parse(a).Ok? {
      var x := Parse(a).value;
      StrictOrder(x, x, x);
      if Parse(b).Ok? {
        var y := Parse(b).value;
        StrictOrder(x, y, x);
        if Parse(c).Ok? {
          var z := Parse(c).value;
          StrictOrder(z, y, x);
          StrictOrder(y, z, x);
          StrictOrder(x, z, y);
        }
      }
    }
  }

  method IsVersionGreater(a: string, b: string) returns (r: bool)
    ensures r == VersionGreater(a, b)
  {
    var av := ParseVersion(a);
    if av.Bad? {
      return false;
    }
    var bv := ParseVersion(b);
    if bv.Bad? {
      return false;
    }
    var c := CompareVersions(av.value, bv.value);
    return c > 0;
  }

  /** currentProvider, with its fallback for "foo.init" registered as "foo". */
  function CurrentProvider(m: Manifest, item: string): Maybe<(string, string)> {
    var found := ManifestProvider(m, item);
    if found.Just? then found
    else if HasSuffix(item, ".init") then ManifestProvider(m, item[..|item| - |".init"|])
    else Nothing
  }

  /** Whether a new file takes the plain path from the current provider. */
  predicate TakesPlain(current: Maybe<(string, string)>, name: string, ver: string) {
    || current.Nothing?
    || Less(name, current.value.0)
    || (name == current.value.0 && (ver == current.value.1 || VersionGreater(ver, current.value.1)))
  }

  type Files = map<string, string>

  function Rename(files: Files, from: string, to: string): Files
    requires from in files
  {
    (files - {from})[to := files[from]]
  }

  /** The files after the plain path was cleared for a new winner. */
  function MadeRoom(files: Files, current: Maybe<(string, string)>, deployDir: string, plain: string,
                   name: string, ver: string): Files
  {
    if plain !in files || current == Just((name, ver)) then files
    else if current.Just? then Rename(files, plain, MungedPath(deployDir, plain, current.value.0, current.value.1))
    else Rename(files, plain, plain + "~")
  }

  /** resolveSpot: the files it leaves and the target it chooses. */
  function Spot(files: Files, current: Maybe<(string, string)>, deployDir: string, plain: string,
                name: string, ver: string): (Files, string)
  {
    if TakesPlain(current, name, ver) then (MadeRoom(files, current, deployDir, plain, name, ver), plain)
    else (files, MungedPath(deployDir, plain, name, ver))
  }

  /** The tree on disk, file by file with the rock each one came from, and the manifest
      its provider lookup was made from. */
  class Tree {
    var files: Files
    const manifest: Manifest

    constructor (files: Files, manifest: Manifest)
      ensures this.files == files && this.manifest == manifest
    {
      this.files, this.manifest := files, manifest;
    }

    method ResolveSpot(deployDir: string, plainTarget: string, item: string, newName: string, newVer: string)
      returns (target: string)
      modifies this
      ensures (files, target)
           == Spot(old(files), CurrentProvider(manifest, item), deployDir, plainTarget, newName, newVer)
    {
      var current := CurrentProvider(manifest, item);
      var nv := current.Nothing?;
      if !nv {
        var (curName, curVer) := current.value;
        var greater := IsVersionGreater(newVer, curVer);
        nv := Less(newName, curName) || (newName == curName && (newVer == curVer || greater));
      }
      if !nv {
        return MungedPath(deployDir, plainTarget, newName, newVer);
      }
      if plainTarget in files {
        if current.Just? && (current.value.0 != newName || current.value.1 != newVer) {
          var demoted := MungedPath(deployDir, plainTarget, current.value.0, current.value.1);
          files := (files - {plainTarget})[demoted := files[plainTarget]];
        } else if current.Nothing? {
          files := (files - {plainTarget})[plainTarget + "~" := files[plainTarget]];
        }
      }
      return plainTarget;
    }
  }

  // ---- the module index ----------------------------------------------------

  /** The file is indexed under mod: its name is not munged. */
  predicate IndexedAs(rel: string, mod: string, pkg: string, ver: string) {
    !HasPrefix(rel, MungedPrefix(pkg, ver)) && PathToModule(rel) == mod && mod != ""
  }

  ghost predicate SomeIndexed(files: set<string>, mod: string, pkg: string, ver: string) {
    exists rel :: rel in files && IndexedAs(rel, mod, pkg, ver)
  }

  /** out is what ModuleIndex can return for these lua and lib files: the lib file of a
      module wins over its lua file. */
  ghost predicate Indexes(lua: set<string>, lib: set<string>, pkg: string, ver: string, out: map<string, string>) {
    && (forall mod :: mod in out <==> SomeIndexed(lua, mod, pkg, ver) || SomeIndexed(lib, mod, pkg, ver))
    && (forall mod :: mod in out ==>
          && IndexedAs(out[mod], mod, pkg, ver)
          && out[mod] in if SomeIndexed(lib, mod, pkg, ver) then lib else lua)
  }

  /** The inner loop: index one set of files over what out holds already. */
  method IndexFiles(files: set<string>, out: map<string, string>, pkg: string, ver: string)
    returns (r: map<string, string>)
    ensures forall mod :: mod in r <==> mod in out || SomeIndexed(files, mod, pkg, ver)
    ensures forall mod :: mod in r ==>
      if SomeIndexed(files, mod, pkg, ver) then IndexedAs(r[mod], mod, pkg, ver) && r[mod] in files
      else mod in out && r[mod] == out[mod]
  {
    r := out;
    var left := files;
    ghost var done: set<string> := {};
    while left != {}
      invariant left <= files && done == files - left
      invariant forall mod :: mod in r <==> mod in out || SomeIndexed(done, mod, pkg, ver)
      invariant forall mod :: mod in r ==>
        if SomeIndexed(done, mod, pkg, ver) then IndexedAs(r[mod], mod, pkg, ver) && r[mod] in files
        else mod in out && r[mod] == out[mod]
      decreases |left|
    {
      var rel :| rel in left;
      ghost var more := done + {rel};
      forall mod ensures SomeIndexed(more, mod, pkg, ver) <==>
                         SomeIndexed(done, mod, pkg, ver) || IndexedAs(rel, mod, pkg, ver)
      {
        OneMoreIndexed(done, rel, mod, pkg, ver);
      }
      var mod := PathToModule(rel);
      if !HasPrefix(rel, MungedPrefix(pkg, ver)) && mod != "" {
        r := r[mod := rel];
      }
      left := left - {rel};
      done := more;
    }
    assert done == files;
  }

  lemma OneMoreIndexed(done: set<string>, rel: string, mod: string, pkg: string, ver: string)
    ensures SomeIndexed(done + {rel}, mod, pkg, ver) <==>
            SomeIndexed(done, mod, pkg, ver) || IndexedAs(rel, mod, pkg, ver)
  {
    if SomeIndexed(done, mod, pkg, ver) {
      var f :| f in done && IndexedAs(f, mod, pkg, ver);
      assert f in done + {rel};
    }
    assert rel in done + {rel};
  }

  method ModuleIndex(lua: set<string>, lib: set<string>, pkg: string, ver: string) returns (out: map<string, string>)
    ensures Indexes(lua, lib, pkg, ver, out)
  {
    out := IndexFiles(lua, map[], pkg, ver);
    out := IndexFiles(lib, out, pkg, ver);
  }
}
