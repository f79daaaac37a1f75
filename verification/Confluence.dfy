/** Who ends up with one module's plain path: the result of any sequence of installs is
    the same in whatever order they come. */
module Confluence {
  import opened Text
  import opened Rocks
  import opened Versions
  import opened ProviderLists
  import opened TreeIndex
  import opened TreeRuns
  import opened Conflicts

  // ---- claims --------------------------------------------------------------

  /** One module file of a shared directory, by its path below it: the lib directory or
      the lua directory. */
  datatype Site = Site(deployDir: string, rel: string, inLib: bool) {
    function Plain(): string {
      deployDir + "/" + rel
    }
    function Item(): string {
      PathToModule(rel)
    }
    /** Where the file of a rock that does not own the plain path stands. */
    function Munged(c: Claim): string {
      MungedPath(deployDir, Plain(), c.name, c.version)
    }
  }

  /** A rock version that deploys the module. */
  datatype Claim = Claim(name: string, version: string) {
    function Pair(): (string, string) {
      (name, version)
    }
  }

  /** The smaller name comes first, and of one name the higher version. */
  predicate Beats(a: Claim, b: Claim) {
    Less(a.name, b.name) || (a.name == b.name && VersionGreater(a.version, b.version))
  }

  predicate IsWinner(w: Claim, claims: set<Claim>) {
    w in claims && forall c :: c in claims && c != w ==> Beats(w, c)
  }

  /** The module is indexed under its own name, no ".init" fallback reaches it, and
      neither its path nor its directory confuses the munged names. */
  predicate OrdinarySite(site: Site) {
    site.Item() != "" && !HasSuffix(site.Item(), ".init") && !HasPrefix(site.rel, "/")
  }

  /** Claims whose names have no slash, whose munged names are distinct, and of which the
      versions of one rock are distinct in the version order. */
  predicate Orderly(site: Site, claims: set<Claim>) {
    && (forall c :: c in claims ==> '/' !in c.name && !HasPrefix(site.rel, MungedPrefix(c.name, c.version)))
    && (forall a, b :: a in claims && b in claims && a != b ==>
          && MungedVersion(a.name, a.version) != MungedVersion(b.name, b.version)
          && (a.name == b.name ==> VersionGreater(a.version, b.version) || VersionGreater(b.version, a.version)))
  }

  lemma BeatsTransitive(a: Claim, b: Claim, c: Claim)
    requires Beats(a, b) && Beats(b, c)
    ensures Beats(a, c)
  {
    if Less(a.name, b.name) && Less(b.name, c.name) {
      LessTransitive(a.name, b.name, c.name);
    } else if a.name == b.name && b.name == c.name && !Less(a.name, b.name) && !Less(b.name, c.name) {
      GreaterIsStrict(a.version, b.version, c.version);
    }
  }

  lemma BeatsOneWay(a: Claim, b: Claim)
    ensures !(Beats(a, b) && Beats(b, a))
  {
    if Less(a.name, b.name) { LessAsymmetric(a.name, b.name); }
    if Less(b.name, a.name) { LessAsymmetric(b.name, a.name); }
    GreaterIsStrict(a.version, b.version, a.version);
  }

  lemma WinnerIsOne(v: Claim, w: Claim, claims: set<Claim>)
    requires IsWinner(v, claims) && IsWinner(w, claims)
    ensures v == w
  {
    if v != w { BeatsOneWay(v, w); }
  }

  /** What one more claim does to the winner. */
  lemma WinnerStep(site: Site, w: Claim, c: Claim, claims: set<Claim>)
    requires IsWinner(w, claims) && Orderly(site, claims + {c})
    ensures TakesPlain(Just(w.Pair()), c.name, c.version) <==> c == w || Beats(c, w)
    ensures IsWinner(if Beats(c, w) then c else w, claims + {c})
  {
    var all := claims + {c};
    assert w in all && c in all;
    LessTotal(w.name, c.name);
    BeatsOneWay(w, c);
    if Beats(c, w) {
      forall x | x in all && x != c ensures Beats(c, x) {
        if x != w { BeatsTransitive(c, w, x); }
      }
    }
  }

  // ---- paths ---------------------------------------------------------------

  lemma {:induction false} RemainderOf(site: Site)
    requires !HasPrefix(site.rel, "/")
    ensures Remainder(site.deployDir, site.Plain()) == site.rel
  {
    var t := "/" + site.rel;
    assert site.Plain() == site.deployDir + t;
    assert site.Plain()[|site.deployDir|..] == t;
    assert site.rel != "" && IsSlash(site.rel[0]) ==> HasPrefix(site.rel, "/");
    RunIs(t, IsSlash, 1);
  }

  /** The path of a munged file below the deploy directory. */
  function MungedRel(site: Site, c: Claim): string {
    MungedPrefix(c.name, c.version) + site.rel
  }

  lemma {:induction false} MungedIs(site: Site, c: Claim)
    requires !HasPrefix(site.rel, "/")
    ensures site.Munged(c) == site.deployDir + "/" + MungedRel(site, c)
    ensures site.Munged(c) != site.Plain()
  {
    RemainderOf(site);
    assert |site.Munged(c)| > |site.Plain()|;
  }

  lemma {:induction false} MungedApart(site: Site, a: Claim, b: Claim)
    requires !HasPrefix(site.rel, "/")
    requires MungedVersion(a.name, a.version) != MungedVersion(b.name, b.version)
    ensures site.Munged(a) != site.Munged(b)
    ensures site.Munged(a) != site.Plain() && site.Munged(b) != site.Plain()
  {
    MungedIs(site, a);
    MungedIs(site, b);
    if site.Munged(a) == site.Munged(b) {
      var dir := site.deployDir + "/";
      assert (dir + MungedRel(site, a))[|dir|..] == MungedRel(site, a);
      assert (dir + MungedRel(site, b))[|dir|..] == MungedRel(site, b);
      SamePrefix(MungedVersion(a.name, a.version), MungedVersion(b.name, b.version), "-" + site.rel);
      Regroup(MungedVersion(a.name, a.version), "-", site.rel);
      Regroup(MungedVersion(b.name, b.version), "-", site.rel);
    }
  }

  lemma SamePrefix(a: string, b: string, s: string)
    ensures a + s == b + s ==> a == b
  {
    if a + s == b + s {
      assert |a| == |b|;
      assert (a + s)[..|a|] == a && (b + s)[..|b|] == b;
    }
  }

  // ---- one install ---------------------------------------------------------

  /** The manifest the next install reads, and the files with their owners' tokens. */
  datatype State = State(m: Manifest, files: Files)

  /** One install of a rock that has the module: its other lua and lib files, the
      commands it records and its dependencies. */
  datatype Visit = Visit(
    claim: Claim,
    lua: set<string>,
    lib: set<string>,
    commands: map<string, string>,
    dependencies: seq<Dep>)

  function TokenOf(c: Claim): string {
    ProviderLists.Token(c.name, c.version)
  }

  /** Nothing else of the rock is called like the module. */
  predicate OnlyOnce(site: Site, v: Visit) {
    && (forall rel :: rel in v.lua + v.lib ==> PathToModule(rel) != site.Item())
    && site.Item() !in v.commands
  }

  /** The module in the rock_manifest: where it was put. */
  function ModuleFile(site: Site, v: Visit, target: string): string {
    if target == site.Plain() then site.rel else MungedRel(site, v.claim)
  }

  function LuaFiles(site: Site, v: Visit, target: string): set<string> {
    if site.inLib then v.lua else v.lua + {ModuleFile(site, v, target)}
  }

  function LibFiles(site: Site, v: Visit, target: string): set<string> {
    if site.inLib then v.lib + {ModuleFile(site, v, target)} else v.lib
  }

  /** What ModuleIndex can return for the visit. */
  ghost predicate IndexesVisit(site: Site, v: Visit, target: string, mods: map<string, string>) {
    Indexes(LuaFiles(site, v, target), LibFiles(site, v, target), v.claim.name, v.claim.version, mods)
  }

  function Placed(site: Site, s: State, v: Visit): (Files, string) {
    Spot(s.files, CurrentProvider(s.m, site.Item()), site.deployDir, site.Plain(), v.claim.name, v.claim.version)
  }

  /** deployRock of one visit, for any module index it may compute. */
  ghost predicate Installs(site: Site, s: State, v: Visit, after: State) {
    var (files, target) := Placed(site, s, v);
    && after.files == files[target := TokenOf(v.claim)]
    && exists mods ::
         && IndexesVisit(site, v, target, mods)
         && after.m == ReadNext(s.m, Install(Deployment(v.claim.name, v.claim.version, mods, v.commands, v.dependencies)))
  }

  lemma {:induction false} IndexedAtPlain(site: Site, v: Visit, mods: map<string, string>)
    requires OrdinarySite(site) && !HasPrefix(site.rel, MungedPrefix(v.claim.name, v.claim.version))
    requires IndexesVisit(site, v, site.Plain(), mods)
    ensures site.Item() in mods
  {
    var lua, lib := LuaFiles(site, v, site.Plain()), LibFiles(site, v, site.Plain());
    assert site.rel in (if site.inLib then lib else lua);
    assert IndexedAs(site.rel, site.Item(), v.claim.name, v.claim.version);
  }

  lemma {:induction false} NotIndexedElsewhere(site: Site, v: Visit, target: string, mods: map<string, string>)
    requires OnlyOnce(site, v) && target != site.Plain()
    requires IndexesVisit(site, v, target, mods)
    ensures site.Item() !in mods
  {
    var prefix := MungedPrefix(v.claim.name, v.claim.version);
    assert (prefix + site.rel)[..|prefix|] == prefix;
    forall rel | rel in LuaFiles(site, v, target) + LibFiles(site, v, target)
      ensures !IndexedAs(rel, site.Item(), v.claim.name, v.claim.version)
    {
      if rel != MungedRel(site, v.claim) { assert rel in v.lua + v.lib; }
    }
  }

  /** The module is indexed exactly when it took the plain path. */
  lemma {:induction false} IndexedWhenPlain(site: Site, v: Visit, target: string, mods: map<string, string>)
    requires OrdinarySite(site) && OnlyOnce(site, v)
    requires !HasPrefix(site.rel, MungedPrefix(v.claim.name, v.claim.version))
    requires IndexesVisit(site, v, target, mods)
    ensures site.Item() in mods <==> target == site.Plain()
  {
    if target == site.Plain() {
      IndexedAtPlain(site, v, mods);
    } else {
      NotIndexedElsewhere(site, v, target, mods);
    }
  }

  // ---- settled states ------------------------------------------------------

  /** The module's list head, when it has a list. */
  predicate HeadIs(m: Manifest, item: string, c: Claim) {
    item in m.modules && m.modules[item] != [] && m.modules[item][0] == TokenOf(c)
  }

  predicate Unclaimed(m: Manifest, item: string) {
    item !in m.modules && item !in m.commands
  }

  /** Every claim but the winner has its file at its munged path. */
  predicate FilesOf(site: Site, claims: set<Claim>, w: Claim, files: Files) {
    && site.Plain() in files && files[site.Plain()] == TokenOf(w)
    && forall c :: c in claims && c != w ==> site.Munged(c) in files && files[site.Munged(c)] == TokenOf(c)
  }

  /** The winner owns the list head and the plain path, every other claim the file at
      its own munged path. */
  predicate OwnedBy(site: Site, claims: set<Claim>, w: Claim, s: State) {
    && IsWinner(w, claims)
    && HeadIs(s.m, site.Item(), w) && site.Item() !in s.m.commands
    && FilesOf(site, claims, w, s.files)
  }

  predicate Settled(site: Site, claims: set<Claim>, s: State) {
    if claims == {} then Unclaimed(s.m, site.Item())
    else exists w :: w in claims && OwnedBy(site, claims, w, s)
  }

  lemma {:induction false} CurrentIs(site: Site, m: Manifest, c: Claim)
    requires '/' !in c.name && HeadIs(m, site.Item(), c)
    ensures CurrentProvider(m, site.Item()) == Just(c.Pair())
  {
    CutToken(c.name, c.version);
  }

  lemma {:induction false} CurrentIsNone(site: Site, m: Manifest)
    requires OrdinarySite(site) && Unclaimed(m, site.Item())
    ensures CurrentProvider(m, site.Item()) == Nothing
  {
  }

  /** The list of an item before and after: its token moves to the head when it is
      indexed, and nothing changes otherwise. */
  predicate ListMoved(before: Manifest, after: Manifest, item: string, indexed: bool, c: Claim) {
    && item !in after.commands
    && if indexed then HeadIs(after, item, c)
       else (item in after.modules <==> item in before.modules)
            && (item in before.modules ==> after.modules[item] == before.modules[item])
  }

  lemma {:induction false} DeployedMoves(m: Manifest, d: Deployment, item: string)
    requires item !in m.commands && item !in d.commands
    ensures ListMoved(m, ReadNext(m, Install(d)), item, item in d.modules, Claim(d.package, d.version))
  {
  }

  /** What an install does to the module: its list and its files. */
  predicate Moves(site: Site, s: State, v: Visit, after: State) {
    var (files, target) := Placed(site, s, v);
    && after.files == files[target := TokenOf(v.claim)]
    && ListMoved(s.m, after.m, site.Item(), target == site.Plain(), v.claim)
  }

  lemma {:induction false} InstallMoves(site: Site, s: State, v: Visit, after: State)
    requires OrdinarySite(site) && OnlyOnce(site, v)
    requires !HasPrefix(site.rel, MungedPrefix(v.claim.name, v.claim.version))
    requires site.Item() !in s.m.commands && Installs(site, s, v, after)
    ensures Moves(site, s, v, after)
  {
    var target := Placed(site, s, v).1;
    var mods :|
      && IndexesVisit(site, v, target, mods)
      && after.m == ReadNext(s.m, Install(Deployment(v.claim.name, v.claim.version, mods, v.commands, v.dependencies)));
    IndexedWhenPlain(site, v, target, mods);
    DeployedMoves(s.m, Deployment(v.claim.name, v.claim.version, mods, v.commands, v.dependencies), site.Item());
  }

  lemma {:induction false} FirstInstall(site: Site, s: State, v: Visit, after: State)
    requires OrdinarySite(site) && Unclaimed(s.m, site.Item()) && Moves(site, s, v, after)
    ensures OwnedBy(site, {v.claim}, v.claim, after)
  {
    assert v.claim in {v.claim};
    CurrentIsNone(site, s.m);
  }

  /** The paths of distinct claims are distinct, and none is the plain path. */
  predicate PathsApart(site: Site, claims: set<Claim>) {
    && (forall c :: c in claims ==> site.Munged(c) != site.Plain())
    && (forall a, b :: a in claims && b in claims && a != b ==> site.Munged(a) != site.Munged(b))
  }

  lemma {:induction false} OrderlyPaths(site: Site, claims: set<Claim>)
    requires OrdinarySite(site) && Orderly(site, claims)
    ensures PathsApart(site, claims)
  {
    forall c | c in claims ensures site.Munged(c) != site.Plain() { MungedIs(site, c); }
    forall a, b | a in claims && b in claims && a != b ensures site.Munged(a) != site.Munged(b) {
      MungedApart(site, a, b);
    }
  }

  lemma {:induction false} NewWinnerFiles(site: Site, claims: set<Claim>, w: Claim, c: Claim, files: Files)
    requires PathsApart(site, claims + {c}) && w in claims && FilesOf(site, claims, w, files)
    ensures
      var next := MadeRoom(files, Just(w.Pair()), site.deployDir, site.Plain(), c.name, c.version)
                  [site.Plain() := TokenOf(c)];
      FilesOf(site, claims + {c}, c, next)
  {
    assert w in claims + {c} && c in claims + {c};
  }

  lemma {:induction false} LoserFiles(site: Site, claims: set<Claim>, w: Claim, c: Claim, files: Files)
    requires PathsApart(site, claims + {c}) && w in claims && c != w && FilesOf(site, claims, w, files)
    ensures FilesOf(site, claims + {c}, w, files[site.Munged(c) := TokenOf(c)])
  {
    assert w in claims + {c} && c in claims + {c};
  }

  lemma {:induction false} NextInstall(site: Site, claims: set<Claim>, w: Claim, s: State, v: Visit, after: State)
    requires OrdinarySite(site) && Orderly(site, claims + {v.claim})
    requires OwnedBy(site, claims, w, s) && Moves(site, s, v, after)
    ensures OwnedBy(site, claims + {v.claim}, if Beats(v.claim, w) then v.claim else w, after)
  {
    var c := v.claim;
    assert w in claims + {c} && c in claims + {c};
    OrderlyPaths(site, claims + {c});
    CurrentIs(site, s.m, w);
    WinnerStep(site, w, c, claims);
    BeatsOneWay(w, c);
    if c == w || Beats(c, w) {
      NewWinnerFiles(site, claims, w, c, s.files);
    } else {
      LoserFiles(site, claims, w, c, s.files);
    }
  }

  // ---- any sequence of installs ----------------------------------------------

  function Claims(visits: seq<Visit>): (r: set<Claim>)
    ensures forall i :: 0 <= i < |visits| ==> visits[i].claim in r
  {
    set i | 0 <= i < |visits| :: visits[i].claim
  }

  /** The states between the installs. */
  ghost predicate Run(site: Site, visits: seq<Visit>, states: seq<State>) {
    && |states| == |visits| + 1
    && forall i :: 0 <= i < |visits| ==> Installs(site, states[i], visits[i], states[i + 1])
  }

  predicate Ordinary(site: Site, visits: seq<Visit>) {
    && OrdinarySite(site) && Orderly(site, Claims(visits))
    && forall i :: 0 <= i < |visits| ==> OnlyOnce(site, visits[i])
  }

  lemma {:induction false} ClaimsStep(visits: seq<Visit>, k: nat)
    requires k < |visits|
    ensures Claims(visits[..k + 1]) == Claims(visits[..k]) + {visits[k].claim}
    ensures Claims(visits[..k + 1]) <= Claims(visits)
  {
    var before, after := visits[..k], visits[..k + 1];
    forall c | c in Claims(after) ensures c in Claims(before) + {visits[k].claim} && c in Claims(visits) {
      var i :| 0 <= i < |after| && after[i].claim == c;
      if i < k { assert before[i].claim == c; }
      assert visits[i].claim == c;
    }
    forall c | c in Claims(before) ensures c in Claims(after) {
      var i :| 0 <= i < |before| && before[i].claim == c;
      assert after[i].claim == c;
    }
    assert after[k].claim == visits[k].claim;
  }

  lemma {:induction false} SettledStep(site: Site, claims: set<Claim>, s: State, v: Visit, after: State)
    requires OrdinarySite(site) && Orderly(site, claims + {v.claim})
    requires Settled(site, claims, s) && Moves(site, s, v, after)
    ensures Settled(site, claims + {v.claim}, after)
  {
    assert v.claim in claims + {v.claim};
    if claims == {} {
      assert claims + {v.claim} == {v.claim};
      FirstInstall(site, s, v, after);
    } else {
      var w :| w in claims && OwnedBy(site, claims, w, s);
      NextInstall(site, claims, w, s, v, after);
    }
  }

  lemma {:induction false} SettledHasNoCommand(site: Site, claims: set<Claim>, s: State)
    requires Settled(site, claims, s)
    ensures site.Item() !in s.m.commands
  {
  }

  /** The steps of a run, seen at the module. */
  ghost predicate MovesAlong(site: Site, visits: seq<Visit>, states: seq<State>) {
    && |states| == |visits| + 1
    && forall k :: 0 <= k < |visits| && site.Item() !in states[k].m.commands ==>
         Moves(site, states[k], visits[k], states[k + 1])
  }

  lemma {:induction false} RunMoves(site: Site, visits: seq<Visit>, states: seq<State>)
    requires Ordinary(site, visits) && Run(site, visits, states)
    ensures MovesAlong(site, visits, states)
  {
    forall k | 0 <= k < |visits| && site.Item() !in states[k].m.commands
      ensures Moves(site, states[k], visits[k], states[k + 1])
    {
      assert visits[k].claim in Claims(visits);
      InstallMoves(site, states[k], visits[k], states[k + 1]);
    }
  }

  lemma {:induction false} OrderlyPart(site: Site, part: set<Claim>, claims: set<Claim>)
    requires Orderly(site, claims) && part <= claims
    ensures Orderly(site, part)
  {
  }

  lemma {:induction false} SettledNext(site: Site, visits: seq<Visit>, states: seq<State>, k: nat)
    requires OrdinarySite(site) && Orderly(site, Claims(visits))
    requires k < |visits| && |states| == |visits| + 1
    requires site.Item() !in states[k].m.commands ==> Moves(site, states[k], visits[k], states[k + 1])
    requires Settled(site, Claims(visits[..k]), states[k])
    ensures Settled(site, Claims(visits[..k + 1]), states[k + 1])
  {
    var claims := Claims(visits[..k]);
    ClaimsStep(visits, k);
    OrderlyPart(site, Claims(visits[..k + 1]), Claims(visits));
    SettledHasNoCommand(site, claims, states[k]);
    SettledStep(site, claims, states[k], visits[k], states[k + 1]);
  }

  lemma {:induction false} SettledAfter(site: Site, visits: seq<Visit>, states: seq<State>, k: nat)
    requires Ordinary(site, visits) && MovesAlong(site, visits, states) && k <= |visits|
    requires Unclaimed(states[0].m, site.Item())
    ensures Settled(site, Claims(visits[..k]), states[k])
  {
    if k > 0 {
      SettledAfter(site, visits, states, k - 1);
      SettledNext(site, visits, states, k - 1);
    }
  }

  /** After any sequence of installs of a module that had no provider, the smallest rock
      name with its highest version heads the provider list and owns the plain path, and
      every other rock's file stands at its munged path. */
  lemma {:induction false} InstallsSettle(site: Site, visits: seq<Visit>, states: seq<State>)
    requires Ordinary(site, visits) && Run(site, visits, states) && Unclaimed(states[0].m, site.Item())
    ensures Settled(site, Claims(visits), states[|visits|])
  {
    RunMoves(site, visits, states);
    SettledAfter(site, visits, states, |visits|);
    assert visits[..|visits|] == visits;
  }

  /** Two states agree on the active provider, on the plain file and on every other
      claim's munged file. */
  ghost predicate Agree(site: Site, claims: set<Claim>, s: State, s': State) {
    exists w :: w in claims && OwnedBy(site, claims, w, s) && OwnedBy(site, claims, w, s')
  }

  /** Installs of the same claims in any two orders, from any two starts, agree. */
  lemma {:induction false} OrderIrrelevant(site: Site, visits: seq<Visit>, states: seq<State>,
                                           visits': seq<Visit>, states': seq<State>)
    requires Ordinary(site, visits) && Run(site, visits, states) && Unclaimed(states[0].m, site.Item())
    requires Ordinary(site, visits') && Run(site, visits', states') && Unclaimed(states'[0].m, site.Item())
    requires Claims(visits) == Claims(visits') != {}
    ensures Agree(site, Claims(visits), states[|visits|], states'[|visits'|])
  {
    InstallsSettle(site, visits, states);
    InstallsSettle(site, visits', states');
    var w :| w in Claims(visits) && OwnedBy(site, Claims(visits), w, states[|visits|]);
    var w' :| w' in Claims(visits) && OwnedBy(site, Claims(visits), w', states'[|visits'|]);
    WinnerIsOne(w, w', Claims(visits));
  }

  /** Versions of one rock that tie in the version order are outside the rule: whichever
      is installed first keeps the plain path, so the order of installs shows. */
  lemma {:induction false} FirstOfTieStays(site: Site, s: State, a: Visit, b: Visit, between: State, after: State)
    requires OrdinarySite(site) && Unclaimed(s.m, site.Item())
    requires a.claim.name == b.claim.name && '/' !in a.claim.name && a.claim != b.claim
    requires !VersionGreater(a.claim.version, b.claim.version) && !VersionGreater(b.claim.version, a.claim.version)
    requires Moves(site, s, a, between) && Moves(site, between, b, after)
    ensures HeadIs(after.m, site.Item(), a.claim)
    ensures site.Plain() in after.files && after.files[site.Plain()] == TokenOf(a.claim)
  {
    FirstInstall(site, s, a, between);
    CurrentIs(site, between.m, a.claim);
    LessIrreflexive(a.claim.name);
    MungedIs(site, b.claim);
  }
}
