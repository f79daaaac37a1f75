/** What a plan of the dependency resolver is, read off the index, the fetcher, the VM and
    the tree alone. */
module PlanMeaning {
  import opened Versions
  import opened Constraints
  import opened ConstraintMeaning
  import opened Rocks
  import opened Selection
  import opened Sorting
  import opened DependencyResolver

  // ---- one step --------------------------------------------------------------

  /** row is one the index gives for d, of a version that d accepts. */
  ghost predicate Candidate(w: World, d: Dep, row: VersionedRock) {
    && w.query(d.name, d.namespace).Just? && row in w.query(d.name, d.namespace).value
    && Match(row.version, d.constraints)
  }

  /** The candidates for d all carry revisions, or none does. */
  ghost predicate UniformCandidates(w: World, d: Dep) {
    forall r, q :: Candidate(w, d, r) && Candidate(w, d, q) ==> r.version.hasRevision == q.version.hasRevision
  }

  /** The row at i is a candidate, later than those before it and no earlier than those
      behind it. */
  ghost predicate NewestAt(rows: seq<VersionedRock>, cs: seq<Constraint>, i: nat) {
    && i < |rows| && Match(rows[i].version, cs)
    && (forall j :: 0 <= j < i && Match(rows[j].version, cs) ==> Precedes(rows[j].version, rows[i].version))
    && (forall j :: i <= j < |rows| && Match(rows[j].version, cs) ==> !Precedes(rows[i].version, rows[j].version))
  }

  /** row is the first of the newest candidates, when the order tells them apart. */
  ghost predicate Newest(w: World, d: Dep, row: VersionedRock)
    requires w.query(d.name, d.namespace).Just?
  {
    var rows := w.query(d.name, d.namespace).value;
    UniformCandidates(w, d) ==> exists i: nat :: NewestAt(rows, d.constraints, i) && rows[i] == row
  }

  /** The rockspec of the row; a row without one has the fetcher's, if there is a fetcher. */
  ghost predicate SpecOf(w: World, row: VersionedRock, spec: Maybe<Rockspec>) {
    if row.spec.Just? then spec == row.spec
    else if w.fetch.Just? then w.fetch.value(row) == Spec(spec)
    else spec.Nothing?
  }

  /** step installs the row for d. */
  ghost predicate Installs(w: World, d: Dep, row: VersionedRock, step: InstallStep) {
    && Candidate(w, d, row) && Newest(w, d, row)
    && step.name == row.name && step.version == row.version && step.url == row.url
    && SpecOf(w, row, step.rockspec)
  }

  ghost predicate InstallsFor(w: World, d: Dep, step: InstallStep) {
    exists row :: Installs(w, d, row, step)
  }

  lemma {:induction false} NewerIsPrecedes(a: VersionedRock, b: VersionedRock)
    ensures Newer(a, b) <==> Precedes(b.version, a.version)
  {
    CompareMeaning(a.version, b.version);
  }

  /** The row at p is the i-th that matches: those before it come from the matching rows
      before i, and those behind it from the others. */
  ghost predicate StandsAt(rows: seq<VersionedRock>, cs: seq<Constraint>, m: seq<VersionedRock>, i: nat, p: nat) {
    && i < |m| && p < |rows| && rows[p] == m[i] && Match(rows[p].version, cs)
    && (forall q :: 0 <= q < p && Match(rows[q].version, cs) ==> rows[q] in m[..i])
    && (forall q :: p < q < |rows| && Match(rows[q].version, cs) ==> rows[q] in m[i..])
  }

  lemma {:induction false} StandsStill(rows: seq<VersionedRock>, cs: seq<Constraint>, m: seq<VersionedRock>,
                                       i: nat, p: nat, x: VersionedRock)
    requires StandsAt(rows, cs, m, i, p)
    ensures StandsAt(rows + [x], cs, m + if Match(x.version, cs) then [x] else [], i, p)
  {
    var more := m + if Match(x.version, cs) then [x] else [];
    assert more[..i] == m[..i];
    assert more[i..] == m[i..] + if Match(x.version, cs) then [x] else [];
    forall q | p < q < |rows + [x]| && Match((rows + [x])[q].version, cs) ensures (rows + [x])[q] in more[i..] {
      if q < |rows| { assert rows[q] in m[i..]; }
    }
  }

  lemma {:induction false} StandsLast(rows: seq<VersionedRock>, cs: seq<Constraint>, m: seq<VersionedRock>,
                                      x: VersionedRock)
    requires Match(x.version, cs) && forall r :: r in rows && Match(r.version, cs) ==> r in m
    ensures StandsAt(rows + [x], cs, m + [x], |m|, |rows|)
  {
    assert (m + [x])[..|m|] == m;
  }

  lemma {:induction false} RowIndex(rows: seq<VersionedRock>, cs: seq<Constraint>, i: nat) returns (p: nat)
    requires i < |Matching(rows, cs)|
    ensures StandsAt(rows, cs, Matching(rows, cs), i, p)
  {
    var n := |rows| - 1;
    var init := Matching(rows[..n], cs);
    assert rows == rows[..n] + [rows[n]];
    if i < |init| {
      p := RowIndex(rows[..n], cs, i);
      StandsStill(rows[..n], cs, init, i, p, rows[n]);
    } else {
      p := n;
      StandsLast(rows[..n], cs, init, rows[n]);
    }
  }

  lemma {:induction false} FirstIsNewest(rows: seq<VersionedRock>, cs: seq<Constraint>, i: nat) returns (p: nat)
    requires FirstMinimal(Newer, Matching(rows, cs), i)
    ensures NewestAt(rows, cs, p) && rows[p] == Matching(rows, cs)[i]
  {
    var m := Matching(rows, cs);
    p := RowIndex(rows, cs, i);
    forall j | 0 <= j < p && Match(rows[j].version, cs) ensures Precedes(rows[j].version, rows[p].version) {
      var k :| 0 <= k < i && m[..i][k] == rows[j];
      NewerIsPrecedes(m[i], m[k]);
    }
    forall j | p <= j < |rows| && Match(rows[j].version, cs) ensures !Precedes(rows[p].version, rows[j].version) {
      var k :| 0 <= k < |m| && m[k] == rows[j];
      NewerIsPrecedes(m[k], m[i]);
    }
  }

  lemma {:induction false} HeadIsNewest(w: World, d: Dep)
    requires w.query(d.name, d.namespace).Just?
    requires SortPick(Matching(w.query(d.name, d.namespace).value, d.constraints)).Just?
    ensures
      var pick := SortPick(Matching(w.query(d.name, d.namespace).value, d.constraints)).value;
      Candidate(w, d, pick) && Newest(w, d, pick)
  {
    var rows := w.query(d.name, d.namespace).value;
    var m := Matching(rows, d.constraints);
    SortedElements(Newer, m);
    if UniformCandidates(w, d) {
      assert forall i :: 0 <= i < |m| ==> Candidate(w, d, m[i]);
      assert Uniform(m);
      SortedGoes(Newer, m);
      var i := UniformAgree(m);
      var p := FirstIsNewest(rows, d.constraints, i);
    }
  }

  lemma {:induction false} PickInstalls(w: World, d: Dep, step: InstallStep)
    requires PickedFor(w, d, step)
    ensures InstallsFor(w, d, step)
  {
    HeadIsNewest(w, d);
    var pick := SortPick(Matching(w.query(d.name, d.namespace).value, d.constraints)).value;
    assert Installs(w, d, pick, step);
  }

  // ---- the plan --------------------------------------------------------------

  /** The dependencies a step's rockspec declares. */
  function Declared(step: InstallStep): seq<Dep> {
    if step.rockspec.Just? then step.rockspec.value.dependencies else []
  }

  ghost predicate HasStep(steps: seq<InstallStep>, d: Dep) {
    exists k :: 0 <= k < |steps| && steps[k].name == d.name && Match(steps[k].version, d.constraints)
  }

  /** d is met by what the VM provides; else by an installed version, or by a step. */
  ghost predicate MetBy(w: World, steps: seq<InstallStep>, d: Dep) {
    if d.name in w.provided then Match(w.provided[d.name], d.constraints)
    else (exists v :: v in w.installed(d.name) && Match(v, d.constraints)) || HasStep(steps, d)
  }

  /** With the steps in before done, deps lead to the steps in added, depth first: nothing
      for a dependency that is met; for another one the steps its choice needs, and then
      that choice. */
  ghost predicate DepthFirst(w: World, deps: seq<Dep>, before: seq<InstallStep>, added: seq<InstallStep>)
    decreases |added|, |deps|
  {
    if deps == [] then added == []
    else if MetBy(w, before, deps[0]) then DepthFirst(w, deps[1..], before, added)
    else deps[0].name !in w.provided && exists k :: 0 <= k < |added| && ChosenAt(w, deps, before, added, k)
  }

  ghost predicate ChosenAt(w: World, deps: seq<Dep>, before: seq<InstallStep>, added: seq<InstallStep>, k: nat)
    requires deps != [] && k < |added|
    decreases |added|, |deps|, 0
  {
    && added[k].name == deps[0].name && InstallsFor(w, deps[0], added[k])
    && DepthFirst(w, Declared(added[k]), before, added[..k])
    && DepthFirst(w, deps[1..], before + added[..k + 1], added[k + 1..])
  }

  /** The index gives rows of the rock it is asked for. */
  ghost predicate OwnRows(w: World) {
    forall name, namespace ::
      w.query(name, namespace).Just? ==> forall r :: r in w.query(name, namespace).value ==> r.name == name
  }

  lemma {:induction false} OwnRowsHonest(w: World)
    requires OwnRows(w)
    ensures Honest(w)
  {
    forall d: Dep, step: InstallStep | PickedFor(w, d, step) ensures step.name == d.name {
      PickInstalls(w, d, step);
    }
  }

  /** steps are those chosen for names. */
  ghost predicate StepsOf(chosen: map<string, InstallStep>, names: seq<string>, steps: seq<InstallStep>) {
    && |names| == |steps|
    && forall i :: 0 <= i < |names| ==> names[i] in chosen && chosen[names[i]] == steps[i] && steps[i].name == names[i]
  }

  lemma {:induction false} MetSame(w: World, chosen: map<string, InstallStep>, before: seq<string>,
                                   steps: seq<InstallStep>, d: Dep)
    requires StepsOf(chosen, before, steps)
    ensures Met(w, chosen, before, d) <==> MetBy(w, steps, d)
  {
    assert InstalledMeets(w, d) <==> exists v :: v in w.installed(d.name) && Match(v, d.constraints);
    if d.name in before && d.name in chosen && Match(chosen[d.name].version, d.constraints) {
      var k :| 0 <= k < |before| && before[k] == d.name;
      assert steps[k].name == d.name;
    }
  }

  lemma StepsSplit(chosen: map<string, InstallStep>, before: seq<string>, added: seq<string>,
                   done: seq<InstallStep>, steps: seq<InstallStep>, k: nat)
    requires StepsOf(chosen, before, done) && StepsOf(chosen, added, steps) && k < |added|
    ensures StepsOf(chosen, added[..k], steps[..k]) && StepsOf(chosen, added[k + 1..], steps[k + 1..])
    ensures StepsOf(chosen, before + added[..k + 1], done + steps[..k + 1])
  {
  }

  lemma {:induction false} PickDepthFirst(w: World, chosen: map<string, InstallStep>, deps: seq<Dep>,
                                          before: seq<string>, added: seq<string>,
                                          done: seq<InstallStep>, steps: seq<InstallStep>, k: nat)
    requires deps != [] && k < |added| && UnfoldsAt(w, chosen, deps, before, added, k)
    requires StepsOf(chosen, added, steps)
    requires DepthFirst(w, DepsOf(steps[k]), done, steps[..k])
    requires DepthFirst(w, deps[1..], done + steps[..k + 1], steps[k + 1..])
    ensures ChosenAt(w, deps, done, steps, k)
  {
    PickInstalls(w, deps[0], steps[k]);
  }

  lemma {:induction false} UnfoldsDepthFirst(w: World, chosen: map<string, InstallStep>, deps: seq<Dep>,
                                             before: seq<string>, added: seq<string>,
                                             done: seq<InstallStep>, steps: seq<InstallStep>)
    requires Unfolds(w, chosen, deps, before, added)
    requires StepsOf(chosen, before, done) && StepsOf(chosen, added, steps)
    ensures DepthFirst(w, deps, done, steps)
    decreases |added|, |deps|
  {
    if deps != [] {
      MetSame(w, chosen, before, done, deps[0]);
      if MetBy(w, done, deps[0]) {
        UnfoldsDepthFirst(w, chosen, deps[1..], before, added, done, steps);
      } else {
        var k :| 0 <= k < |added| && UnfoldsAt(w, chosen, deps, before, added, k);
        StepsSplit(chosen, before, added, done, steps, k);
        UnfoldsDepthFirst(w, chosen, DepsOf(steps[k]), before, added[..k], done, steps[..k]);
        UnfoldsDepthFirst(w, chosen, deps[1..], before + added[..k + 1], added[k + 1..], done + steps[..k + 1],
                          steps[k + 1..]);
        PickDepthFirst(w, chosen, deps, before, added, done, steps, k);
        assert ChosenAt(w, deps, done, steps, k);
      }
    }
  }

  /** A plan is the depth-first unfolding of the root's dependencies. */
  lemma {:induction false} PlanIsDepthFirst(w: World, root: seq<Dep>, names: seq<string>, steps: seq<InstallStep>)
    requires OwnRows(w) && PlanFor(w, root, names, steps)
    ensures DepthFirst(w, root, [], steps)
  {
    OwnRowsHonest(w);
    var chosen :| ChoiceOf(w, root, names, steps, chosen);
    StepNames(w, root, names, steps, chosen);
    UnfoldsDepthFirst(w, chosen, root, [], names, [], steps);
  }

  ghost predicate AllMetBy(w: World, steps: seq<InstallStep>, deps: seq<Dep>) {
    forall d :: d in deps ==> MetBy(w, steps, d)
  }

  ghost predicate FromIndex(w: World, step: InstallStep) {
    exists d :: InstallsFor(w, d, step)
  }

  /** The step at i installs the newest row the index gives for some dependency, with the
      rockspec of that row, and what the rockspec declares is met by the VM, by the tree or
      by the steps before it. */
  ghost predicate Sensible(w: World, steps: seq<InstallStep>, i: nat)
    requires i < |steps|
  {
    FromIndex(w, steps[i]) && AllMetBy(w, steps[..i], Declared(steps[i]))
  }

  lemma {:induction false} AllMetSame(w: World, chosen: map<string, InstallStep>, before: seq<string>,
                                      steps: seq<InstallStep>, deps: seq<Dep>)
    requires StepsOf(chosen, before, steps) && AllMet(w, chosen, before, deps)
    ensures AllMetBy(w, steps, deps)
  {
    forall d | d in deps ensures MetBy(w, steps, d) {
      MetSame(w, chosen, before, steps, d);
    }
  }

  lemma {:induction false} StepInstalls(w: World, root: seq<Dep>, chosen: map<string, InstallStep>, name: string)
    requires Justified(w, root, chosen, name)
    ensures name in chosen && FromIndex(w, chosen[name])
  {
    var chain :| JustifiedBy(w, root, chosen, name, chain);
    var d :| PickOf(w, DepsAt(root, chosen, chain), name, chosen[name], d);
    PickInstalls(w, d, chosen[name]);
  }

  lemma {:induction false} StepMet(w: World, chosen: map<string, InstallStep>, names: seq<string>,
                                   steps: seq<InstallStep>, i: nat)
    requires StepsOf(chosen, names, steps) && Topological(w, chosen, names) && i < |steps|
    ensures AllMetBy(w, steps[..i], Declared(steps[i]))
  {
    assert StepsOf(chosen, names[..i], steps[..i]);
    AllMetSame(w, chosen, names[..i], steps[..i], DepsOf(chosen[names[i]]));
  }

  /** Every step of a plan is sensible, and all that the root declares is met. */
  lemma {:induction false} PlanInstalls(w: World, root: seq<Dep>, names: seq<string>, steps: seq<InstallStep>)
    requires OwnRows(w) && PlanFor(w, root, names, steps)
    ensures forall i :: 0 <= i < |steps| ==> Sensible(w, steps, i)
    ensures AllMetBy(w, steps, root)
  {
    OwnRowsHonest(w);
    var chosen :| ChoiceOf(w, root, names, steps, chosen);
    StepNames(w, root, names, steps, chosen);
    AllMetSame(w, chosen, names, steps, root);
    forall i | 0 <= i < |steps| ensures Sensible(w, steps, i) {
      StepInstalls(w, root, chosen, names[i]);
      StepMet(w, chosen, names, steps, i);
    }
  }

  // ---- one plan --------------------------------------------------------------

  /** Both choose the same steps for the names. */
  ghost predicate Agree(a: map<string, InstallStep>, b: map<string, InstallStep>, names: seq<string>) {
    forall n :: n in names ==> n in a && n in b && a[n] == b[n]
  }

  lemma {:induction false} SameMet(w: World, a: map<string, InstallStep>, b: map<string, InstallStep>,
                                   before: seq<string>, d: Dep)
    requires Agree(a, b, before)
    ensures Met(w, a, before, d) <==> Met(w, b, before, d)
  {
  }

  lemma {:induction false} UnfoldsOneWay(w: World, a: map<string, InstallStep>, b: map<string, InstallStep>,
                                         deps: seq<Dep>, before: seq<string>, xs: seq<string>, ys: seq<string>)
    requires Agree(a, b, before) && Unfolds(w, a, deps, before, xs) && Unfolds(w, b, deps, before, ys)
    ensures xs == ys && Agree(a, b, xs)
    decreases |xs|, |deps|
  {
    if deps != [] {
      SameMet(w, a, b, before, deps[0]);
      if Met(w, a, before, deps[0]) {
        UnfoldsOneWay(w, a, b, deps[1..], before, xs, ys);
      } else {
        var i :| 0 <= i < |xs| && UnfoldsAt(w, a, deps, before, xs, i);
        var j :| 0 <= j < |ys| && UnfoldsAt(w, b, deps, before, ys, j);
        assert a[xs[i]] == b[ys[j]];
        UnfoldsOneWay(w, a, b, DepsOf(a[xs[i]]), before, xs[..i], ys[..j]);
        SamePick(a, b, before, xs, ys, i, j);
        UnfoldsOneWay(w, a, b, deps[1..], before + xs[..i + 1], xs[i + 1..], ys[j + 1..]);
        assert xs == xs[..i + 1] + xs[i + 1..] && ys == ys[..j + 1] + ys[j + 1..];
      }
    }
  }

  lemma {:induction false} SamePick(a: map<string, InstallStep>, b: map<string, InstallStep>, before: seq<string>,
                                    xs: seq<string>, ys: seq<string>, i: nat, j: nat)
    requires i < |xs| && j < |ys| && xs[..i] == ys[..j] && xs[i] == ys[j]
    requires Agree(a, b, before) && Agree(a, b, xs[..i]) && xs[i] in a && xs[i] in b && a[xs[i]] == b[xs[i]]
    ensures xs[..i + 1] == ys[..j + 1] && Agree(a, b, before + xs[..i + 1])
  {
    assert |xs[..i]| == |ys[..j]|;
    assert xs[..i + 1] == xs[..i] + [xs[i]] && ys[..j + 1] == ys[..j] + [ys[j]];
  }

  /** There is at most one plan for a root. */
  lemma {:induction false} PlanIsUnique(w: World, root: seq<Dep>, names: seq<string>, steps: seq<InstallStep>,
                                        names': seq<string>, steps': seq<InstallStep>)
    requires PlanFor(w, root, names, steps) && PlanFor(w, root, names', steps')
    ensures names == names' && steps == steps'
  {
    var a :| ChoiceOf(w, root, names, steps, a);
    var b :| ChoiceOf(w, root, names', steps', b);
    UnfoldsOneWay(w, a, b, root, [], names, names');
    forall i | 0 <= i < |steps| ensures steps[i] == steps'[i] {
      assert names[i] in names;
    }
  }

  // ---- errors ----------------------------------------------------------------

  /** The dependency an error is about is declared by the root or by a rock picked. */
  ghost predicate DeclaredBy(root: seq<Dep>, picks: map<string, InstallStep>, d: Dep) {
    d in root || exists n :: n in picks && d in Declared(picks[n])
  }

  /** What is so when the walk stops with the error. */
  ghost predicate Blames(w: World, root: seq<Dep>, picks: map<string, InstallStep>, e: Error) {
    match e
    case NilRoot => false
    case Cancelled => true
    case Unprovidable(d) =>
      DeclaredBy(root, picks, d) && d.name in w.provided && !Match(w.provided[d.name], d.constraints)
    case QueryFailed(d) => DeclaredBy(root, picks, d) && w.query(d.name, d.namespace).Nothing?
    case NoVersion(d) =>
      DeclaredBy(root, picks, d) && w.query(d.name, d.namespace).Just? && forall row :: !Candidate(w, d, row)
    case FetchFailed(d) =>
      && DeclaredBy(root, picks, d) && w.fetch.Just?
      && exists row :: Candidate(w, d, row) && row.spec.Nothing? && w.fetch.value(row).FetchError?
    case Conflict(d, version) =>
      && DeclaredBy(root, picks, d) && d.name in picks && picks[d.name].version == version
      && !Match(version, d.constraints)
    case Cycle(name, chain) =>
      && chain != [] && chain[|chain| - 1] == name && name in picks
      && exists d: Dep :: d.name == name && DeclaredBy(root, picks, d)
  }

  lemma {:induction false} ErrorsAreTrue(w: World, root: seq<Dep>, picks: map<string, InstallStep>,
                                         order: seq<string>, e: Error)
    requires Truthful(w, root, picks, order, e)
    ensures Blames(w, root, picks, e)
  {
    var chain, d :| TruthfulAt(w, root, picks, order, e, chain, d);
    assert DeclaredBy(root, picks, d);
    if e.FetchFailed? {
      HeadIsNewest(w, d);
    }
  }
}
