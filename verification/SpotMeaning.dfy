/** What resolveSpot does to the files of a tree, path by path, and what the names of
    versioned files and of modules say. */
module SpotMeaning {
  import opened Text
  import opened Rocks
  import opened Versions
  import opened ConstraintMeaning
  import opened ProviderLists
  import opened Conflicts

  // ---- names -----------------------------------------------------------------

  function Tame(c: char): char {
    if c == '-' || c == '.' then '_' else c
  }

  function TameText(t: string): (r: string)
    ensures |r| == |t| && forall i :: 0 <= i < |t| ==> r[i] == Tame(t[i])
  {
    seq(|t|, i requires 0 <= i < |t| => Tame(t[i]))
  }

  /** The file of rel that a rock which does not own the plain path has. */
  function VersionedFile(dir: string, rel: string, pkg: string, ver: string): string {
    dir + "/" + TameText(pkg) + "_" + TameText(ver) + "-" + rel
  }

  lemma {:induction false} MungedIsTame(pkg: string, ver: string)
    ensures MungedVersion(pkg, ver) == TameText(pkg) + "_" + TameText(ver)
  {
    var t := pkg + "_" + ver;
    var r := TameText(pkg) + "_" + TameText(ver);
    forall i | 0 <= i < |t| ensures MungedVersion(pkg, ver)[i] == r[i] {
    }
  }

  lemma {:induction false} RestOf(dir: string, rel: string)
    requires !HasPrefix(rel, "/")
    ensures Remainder(dir, dir + "/" + rel) == rel
  {
    var t := "/" + rel;
    assert dir + "/" + rel == dir + t && (dir + t)[..|dir|] == dir && (dir + t)[|dir|..] == t;
    assert rel != "" && IsSlash(rel[0]) ==> HasPrefix(rel, "/");
    RunIs(t, IsSlash, 1);
  }

  /** The versioned name: the rock and its version with dots and hyphens tamed, and the
      path below the directory. */
  lemma {:induction false} VersionedName(dir: string, rel: string, pkg: string, ver: string)
    requires !HasPrefix(rel, "/")
    ensures MungedPath(dir, dir + "/" + rel, pkg, ver) == VersionedFile(dir, rel, pkg, ver)
  {
    RestOf(dir, rel);
    MungedIsTame(pkg, ver);
    var tag := TameText(pkg) + "_" + TameText(ver);
    Regroup(tag, "-", rel);
    assert VersionedFile(dir, rel, pkg, ver) == dir + "/" + (tag + "-" + rel);
  }

  predicate AllDots(t: string) {
    forall i :: 0 <= i < |t| ==> t[i] == '.'
  }

  /** r is t without the dots at its ends. */
  ghost predicate Undotted(t: string, r: string) {
    && !HasPrefix(r, ".") && !HasSuffix(r, ".")
    && exists front, back :: t == front + r + back && AllDots(front) && AllDots(back)
  }

  lemma {:induction false} DroppedDots(t: string)
    ensures var r := DropTrailingDots(t); |r| <= |t| && t[..|r|] == r && AllDots(t[|r|..]) && !HasSuffix(r, ".")
  {
    if t != "" && IsDot(t[|t| - 1]) {
      DroppedDots(t[..|t| - 1]);
      var r := DropTrailingDots(t);
      assert t[|r|..] == t[..|t| - 1][|r|..] + [t[|t| - 1]];
    }
  }

  lemma {:induction false} TrimmedDots(t: string)
    ensures Undotted(t, TrimDots(t))
  {
    var n := Run(t, IsDot);
    var u := t[n..];
    DroppedDots(u);
    var r := TrimDots(t);
    assert t == t[..n] + r + u[|r|..];
    assert AllDots(t[..n]) && AllDots(u[|r|..]);
  }

  /** The module of a file: the path without its extension, with dots for slashes, and
      without dots at its ends. */
  lemma {:induction false} ModuleOfFile(stem: string, ext: string)
    requires '.' !in ext
    ensures Undotted(Replace(stem, '/', '.'), PathToModule(stem + "." + ext))
    ensures '.' !in stem ==> Undotted(Replace(stem, '/', '.'), PathToModule(stem))
  {
    var rel := stem + "." + ext;
    LastIndexIs(rel, '.', |stem|);
    assert rel[..|stem|] == stem;
    TrimmedDots(Replace(stem, '/', '.'));
  }

  // ---- who provides ----------------------------------------------------------

  /** The active provider: of a module if it is listed as one, and else of a command; of
      base when nothing provides base.init. */
  lemma {:induction false} ProviderMeaning(m: Manifest, base: string)
    ensures
      var item := base + ".init";
      CurrentProvider(m, item) == if ManifestProvider(m, item).Just? then ManifestProvider(m, item)
                                  else ManifestProvider(m, base)
    ensures base in m.modules && m.modules[base] != [] && '/' in m.modules[base][0] ==>
      ManifestProvider(m, base).Just?
      && ManifestProvider(m, base).value.0 + "/" + ManifestProvider(m, base).value.1 == m.modules[base][0]
    ensures base !in m.modules && base in m.commands && m.commands[base] != [] && '/' in m.commands[base][0] ==>
      ManifestProvider(m, base).Just?
      && ManifestProvider(m, base).value.0 + "/" + ManifestProvider(m, base).value.1 == m.commands[base][0]
  {
    var item := base + ".init";
    assert item[|item| - 5..] == ".init" && item[..|item| - 5] == base;
    if base in m.modules && m.modules[base] != [] { CutSome(m.modules[base][0]); }
    if base in m.commands && m.commands[base] != [] { CutSome(m.commands[base][0]); }
  }

  lemma {:induction false} CutSome(t: string)
    ensures '/' in t ==> Cut(t).Just?
  {
    if t != "" && t[0] != '/' { CutSome(t[1..]); }
  }

  // ---- who wins --------------------------------------------------------------

  /** Both versions parse, and ver is the later one. */
  ghost predicate Later(ver: string, than: string) {
    Parse(ver).Ok? && Parse(than).Ok? && Precedes(Parse(than).value, Parse(ver).value)
  }

  lemma {:induction false} GreaterIsLater(a: string, b: string)
    ensures VersionGreater(a, b) <==> Later(a, b)
  {
    if Parse(a).Ok? && Parse(b).Ok? { CompareMeaning(Parse(a).value, Parse(b).value); }
  }

  /** A rock owns the plain path against another one by its name, and against another
      version of itself by its version. */
  ghost predicate Outranks(name: string, ver: string, other: (string, string)) {
    Less(name, other.0) || (name == other.0 && Later(ver, other.1))
  }

  /** The file at from stands at to now; all other files stay. */
  ghost predicate Moved(was: Files, now: Files, from: string, to: string) {
    && from in was && to in now && now[to] == was[from] && (from == to || from !in now)
    && forall p :: p != from && p != to ==> (p in now <==> p in was) && (p in now ==> now[p] == was[p])
  }

  lemma RenameMoves(files: Files, from: string, to: string)
    requires from in files
    ensures Moved(files, Rename(files, from, to), from, to)
  {
  }

  lemma {:induction false} TakesMeaning(current: (string, string), name: string, ver: string)
    ensures TakesPlain(Just(current), name, ver) <==> (name, ver) == current || Outranks(name, ver, current)
  {
    GreaterIsLater(ver, current.1);
  }

  lemma {:induction false} RoomMeaning(files: Files, current: Maybe<(string, string)>, dir: string, rel: string,
                                       name: string, ver: string)
    requires !HasPrefix(rel, "/")
    ensures
      var plain := dir + "/" + rel;
      var after := MadeRoom(files, current, dir, plain, name, ver);
      if plain !in files || current == Just((name, ver)) then after == files
      else if current.Nothing? then Moved(files, after, plain, plain + "~")
      else Moved(files, after, plain, VersionedFile(dir, rel, current.value.0, current.value.1))
  {
    var plain := dir + "/" + rel;
    if plain in files && current != Just((name, ver)) {
      if current.Just? {
        VersionedName(dir, rel, current.value.0, current.value.1);
        RenameMoves(files, plain, VersionedFile(dir, rel, current.value.0, current.value.1));
      } else {
        RenameMoves(files, plain, plain + "~");
      }
    }
  }

  /** Where a new file goes and what it moves: the plain path is taken when nothing
      provides the module, when the rock itself does, or when it outranks the provider;
      a file there is backed up, overwritten, or moved to the provider's versioned name. */
  lemma {:induction false} SpotMoves(files: Files, current: Maybe<(string, string)>, dir: string, rel: string,
                                     name: string, ver: string)
    requires !HasPrefix(rel, "/")
    ensures
      var plain := dir + "/" + rel;
      var spot := Spot(files, current, dir, plain, name, ver);
      if current.Just? && current.value != (name, ver) && !Outranks(name, ver, current.value) then
        spot == (files, VersionedFile(dir, rel, name, ver))
      else
        && spot.1 == plain
        && if plain !in files || current == Just((name, ver)) then spot.0 == files
           else if current.Nothing? then Moved(files, spot.0, plain, plain + "~")
           else Moved(files, spot.0, plain, VersionedFile(dir, rel, current.value.0, current.value.1))
  {
    VersionedName(dir, rel, name, ver);
    RoomMeaning(files, current, dir, rel, name, ver);
    if current.Just? { TakesMeaning(current.value, name, ver); }
  }

  // ---- the module index ------------------------------------------------------

  /** The file of a rock that stands under its own name, and the module it is. */
  predicate OwnFile(rel: string, mod: string, pkg: string, ver: string) {
    !HasPrefix(rel, TameText(pkg) + "_" + TameText(ver) + "-") && mod == PathToModule(rel) && mod != ""
  }

  /** The index has each module of the files that stand under their own names, with its lib
      file if there is one, and else its lua file. */
  lemma {:induction false} IndexMeaning(lua: set<string>, lib: set<string>, pkg: string, ver: string,
                                        out: map<string, string>, rel: string, mod: string)
    requires Indexes(lua, lib, pkg, ver, out)
    ensures OwnFile(rel, mod, pkg, ver) && rel in lib ==> mod in out && out[mod] in lib && OwnFile(out[mod], mod, pkg, ver)
    ensures OwnFile(rel, mod, pkg, ver) && rel in lua ==> mod in out && OwnFile(out[mod], mod, pkg, ver)
    ensures mod in out ==> OwnFile(out[mod], mod, pkg, ver) && (out[mod] in lib || out[mod] in lua)
  {
    MungedIsTame(pkg, ver);
    assert OwnFile(rel, mod, pkg, ver) <==> IndexedAs(rel, mod, pkg, ver);
    if mod in out {
      assert OwnFile(out[mod], mod, pkg, ver) <==> IndexedAs(out[mod], mod, pkg, ver);
    }
  }
}
