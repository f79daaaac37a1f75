/** deps/resolver.go: the greedy depth-first walk over a dependency closure. */
module DependencyResolver {
  import opened Versions
  import opened Constraints
  import opened Rocks
  import opened Selection
  import Sorting

  // ---- the resolver's surroundings -------------------------------------------

  datatype Fetched = FetchError | Spec(spec: Maybe<Rockspec>)

  /** The index, the spec fetcher, the rocks the VM provides and the installed ones:
      what WithProvided, WithInstalled and WithSpecFetcher configure. */
  datatype World = World(
    query: (string, string) -> Maybe<seq<VersionedRock>>,
    fetch: Maybe<VersionedRock -> Fetched>,
    provided: map<string, Version>,
    installed: string -> seq<Version>)

  /** The picked rock with its rockspec fetched when the index carried none; Nothing
      when the fetch fails. */
  function StepFor(w: World, rock: VersionedRock): Maybe<InstallStep> {
    if rock.spec.Nothing? && w.fetch.Just? then
      var f := w.fetch.value(rock);
      if f.FetchError? then Nothing else Just(InstallStep(rock.name, rock.version, rock.url, f.spec))
    else Just(InstallStep(rock.name, rock.version, rock.url, rock.spec))
  }

  function DepsOf(s: InstallStep): seq<Dep> {
    if s.rockspec.Just? then s.rockspec.value.dependencies else []
  }

  predicate InstalledMeets(w: World, d: Dep) {
    exists i :: 0 <= i < |w.installed(d.name)| && Match(w.installed(d.name)[i], d.constraints)
  }

  /** step is what resolving d picks from the index. */
  ghost predicate PickedFor(w: World, d: Dep, step: InstallStep) {
    && w.query(d.name, d.namespace).Just?
    && var pick := SortPick(Matching(w.query(d.name, d.namespace).value, d.constraints));
       pick.Just? && StepFor(w, pick.value) == Just(step)
  }

  /** names is a finite universe of rock names that dependencies never leave. */
  ghost predicate Closed(w: World, names: set<string>) {
    forall d: Dep, step: InstallStep, e: Dep ::
      d.name in names && PickedFor(w, d, step) && e in DepsOf(step) ==> e.name in names
  }

  // ---- states ----------------------------------------------------------------

  /** The fields of the resolver, and the names queried and fetched so far. */
  datatype State = State(
    chosen: map<string, InstallStep>,
    inFlight: set<string>,
    order: seq<string>,
    asked: seq<string>,
    fetched: seq<string>)

  ghost predicate NoDuplicates(s: seq<string>) {
    forall i, j :: 0 <= i < j < |s| ==> s[i] != s[j]
  }

  /** The dependency list that the walk with this chain is going through. */
  ghost function DepsAt(root: seq<Dep>, chosen: map<string, InstallStep>, chain: seq<string>): seq<Dep> {
    if chain == [] then root
    else if chain[|chain| - 1] in chosen then DepsOf(chosen[chain[|chain| - 1]])
    else []
  }

  /** Neither the VM nor the tree meets d: it takes a rock from the index. */
  ghost predicate Wanted(w: World, d: Dep) {
    d.name !in w.provided && !InstalledMeets(w, d)
  }

  /** step is the pick for the dependency d, one of deps, on name. */
  ghost predicate PickOf(w: World, deps: seq<Dep>, name: string, step: InstallStep, d: Dep) {
    d in deps && d.name == name && Wanted(w, d) && PickedFor(w, d, step)
  }

  ghost predicate Picks(w: World, deps: seq<Dep>, name: string, step: InstallStep) {
    exists d :: PickOf(w, deps, name, step, d)
  }

  /** Every rock of the chain is what the index gives for a dependency of the one
      before it, the first one for a dependency of the root. */
  ghost predicate RealChain(w: World, root: seq<Dep>, chosen: map<string, InstallStep>, chain: seq<string>) {
    forall i :: 0 <= i < |chain| ==> Link(w, root, chosen, chain, i)
  }

  ghost predicate Link(w: World, root: seq<Dep>, chosen: map<string, InstallStep>, chain: seq<string>, i: nat)
    requires i < |chain|
  {
    chain[i] in chosen && Picks(w, DepsAt(root, chosen, chain[..i]), chain[i], chosen[chain[i]])
  }

  /** chain leads from the root to the dependency that name was picked for. */
  ghost predicate JustifiedBy(w: World, root: seq<Dep>, chosen: map<string, InstallStep>, name: string,
                              chain: seq<string>) {
    && name in chosen && RealChain(w, root, chosen, chain)
    && Picks(w, DepsAt(root, chosen, chain), name, chosen[name])
  }

  ghost predicate Justified(w: World, root: seq<Dep>, chosen: map<string, InstallStep>, name: string) {
    exists chain :: JustifiedBy(w, root, chosen, name, chain)
  }

  /** d is met by the VM, by an installed rock, or by one of the chosen rocks in done. */
  ghost predicate Met(w: World, chosen: map<string, InstallStep>, done: seq<string>, d: Dep) {
    if d.name in w.provided then Match(w.provided[d.name], d.constraints)
    else InstalledMeets(w, d)
         || (d.name in done && d.name in chosen && Match(chosen[d.name].version, d.constraints))
  }

  ghost predicate AllMet(w: World, chosen: map<string, InstallStep>, done: seq<string>, deps: seq<Dep>) {
    forall d :: d in deps ==> Met(w, chosen, done, d)
  }

  /** Every finished rock has its dependencies met by rocks finished before it. */
  ghost predicate Topological(w: World, chosen: map<string, InstallStep>, order: seq<string>) {
    forall i :: 0 <= i < |order| ==>
      order[i] in chosen && AllMet(w, chosen, order[..i], DepsOf(chosen[order[i]]))
  }

  /** Going through deps with the rocks in before finished, the walk finishes those in added,
      in this order: nothing for a dependency that is met, and else all that its pick needs
      and then the pick. */
  ghost predicate Unfolds(w: World, chosen: map<string, InstallStep>, deps: seq<Dep>, before: seq<string>,
                          added: seq<string>)
    decreases |added|, |deps|
  {
    if deps == [] then added == []
    else if Met(w, chosen, before, deps[0]) then Unfolds(w, chosen, deps[1..], before, added)
    else
      && deps[0].name !in w.provided && deps[0].name !in before
      && exists k :: 0 <= k < |added| && UnfoldsAt(w, chosen, deps, before, added, k)
  }

  /** The pick for the first of deps is the one at k. */
  ghost predicate UnfoldsAt(w: World, chosen: map<string, InstallStep>, deps: seq<Dep>, before: seq<string>,
                            added: seq<string>, k: nat)
    requires deps != [] && k < |added|
    decreases |added|, |deps|, 0
  {
    && added[k] == deps[0].name && added[k] in chosen && PickedFor(w, deps[0], chosen[added[k]])
    && Unfolds(w, chosen, DepsOf(chosen[added[k]]), before, added[..k])
    && Unfolds(w, chosen, deps[1..], before + added[..k + 1], added[k + 1..])
  }

  /** What was finished behind start unfolds deps. */
  ghost predicate Since(w: World, chosen: map<string, InstallStep>, deps: seq<Dep>, start: seq<string>,
                        order: seq<string>)
  {
    start <= order && Unfolds(w, chosen, deps, start, order[|start|..])
  }

  ghost predicate OnceEach(st: State) {
    NoDuplicates(st.asked) && NoDuplicates(st.fetched)
  }

  /** The bookkeeping: what is chosen is either finished or on the chain. */
  ghost predicate Books(st: State, chain: seq<string>) {
    && NoDuplicates(st.order) && NoDuplicates(chain)
    && (forall n :: n in st.inFlight <==> n in chain)
    && (forall n :: n in chain ==> n !in st.order)
    && (forall n :: n in st.chosen <==> n in st.order || n in chain)
    && OnceEach(st)
    && (forall n :: n in st.asked || n in st.fetched ==> n in st.chosen)
  }

  ghost predicate Grounded(w: World, root: seq<Dep>, chosen: map<string, InstallStep>, chain: seq<string>) {
    && RealChain(w, root, chosen, chain)
    && forall n {:trigger Justified(w, root, chosen, n)} :: n in chosen ==> Justified(w, root, chosen, n)
  }

  /** What holds whenever the walk is below chain. */
  ghost predicate Inv(w: World, root: seq<Dep>, st: State, chain: seq<string>) {
    Books(st, chain) && Grounded(w, root, st.chosen, chain) && Topological(w, st.chosen, st.order)
  }

  ghost predicate Extends(a: map<string, InstallStep>, b: map<string, InstallStep>) {
    forall n :: n in a ==> n in b && b[n] == a[n]
  }

  // ---- errors ----------------------------------------------------------------

  datatype Error =
    | NilRoot
    | Cancelled
    | Unprovidable(d: Dep)
    | Cycle(name: string, chain: seq<string>)
    | Conflict(d: Dep, version: Version)
    | QueryFailed(d: Dep)
    | NoVersion(d: Dep)
    | FetchFailed(d: Dep)

  /** Why no rock can be picked for d. */
  ghost predicate PickFails(w: World, d: Dep, e: Error) {
    var rows := w.query(d.name, d.namespace);
    match e
    case QueryFailed(d') => d' == d && rows.Nothing?
    case NoVersion(d') => d' == d && rows.Just? && forall r :: r in rows.value ==> !Match(r.version, d.constraints)
    case FetchFailed(d') =>
      && d' == d && rows.Just?
      && var pick := SortPick(Matching(rows.value, d.constraints));
         pick.Just? && StepFor(w, pick.value).Nothing?
    case _ => false
  }

  /** The picks when the walk stops below chain: each one what the index gives for a
      dependency reached from the root, and either finished or on the chain. */
  ghost predicate Sound(w: World, root: seq<Dep>, chosen: map<string, InstallStep>, order: seq<string>,
                        chain: seq<string>) {
    && Grounded(w, root, chosen, chain) && Topological(w, chosen, order)
    && NoDuplicates(order) && NoDuplicates(chain)
    && (forall n :: n in chain ==> n !in order)
    && (forall n :: n in chosen <==> n in order || n in chain)
  }

  /** Of the dependency d that stopped the walk below chain, each error says what is
      so, and no other check stops it before. */
  ghost predicate Stops(w: World, chosen: map<string, InstallStep>, chain: seq<string>, d: Dep, e: Error) {
    match e
    case Cancelled => true
    case NilRoot => false
    case Unprovidable(d') => d' == d && d.name in w.provided && !Match(w.provided[d.name], d.constraints)
    case Cycle(name, c) => Wanted(w, d) && name == d.name && name in chain && c == chain + [name]
    case Conflict(d', v) =>
      && d' == d && Wanted(w, d) && d.name !in chain
      && d.name in chosen && v == chosen[d.name].version && !Match(v, d.constraints)
    case _ => Wanted(w, d) && d.name !in chosen && PickFails(w, d, e)
  }

  /** Going through deps the walk has come to d: all before it are met. */
  ghost predicate ComesTo(w: World, chosen: map<string, InstallStep>, order: seq<string>, deps: seq<Dep>, d: Dep) {
    exists i :: 0 <= i < |deps| && deps[i] == d && AllMet(w, chosen, order, deps[..i])
  }

  ghost predicate TruthfulAt(w: World, root: seq<Dep>, chosen: map<string, InstallStep>, order: seq<string>,
                             e: Error, chain: seq<string>, d: Dep) {
    && Sound(w, root, chosen, order, chain)
    && ComesTo(w, chosen, order, DepsAt(root, chosen, chain), d) && Stops(w, chosen, chain, d, e)
  }

  ghost predicate Truthful(w: World, root: seq<Dep>, chosen: map<string, InstallStep>, order: seq<string>, e: Error) {
    exists chain, d :: TruthfulAt(w, root, chosen, order, e, chain, d)
  }

  lemma {:induction false} StopsTruthfully(w: World, root: seq<Dep>, st: State, chain: seq<string>, d: Dep, e: Error)
    requires Inv(w, root, st, chain) && ComesTo(w, st.chosen, st.order, DepsAt(root, st.chosen, chain), d)
    requires Stops(w, st.chosen, chain, d, e)
    ensures Truthful(w, root, st.chosen, st.order, e)
  {
    assert TruthfulAt(w, root, st.chosen, st.order, e, chain, d);
  }

  // ---- steps of the walk -----------------------------------------------------

  lemma {:induction false} MetGrows(w: World, a: map<string, InstallStep>, b: map<string, InstallStep>,
                                    done: seq<string>, more: seq<string>, d: Dep)
    requires Extends(a, b) && Met(w, a, done, d) && forall n :: n in done ==> n in more
    ensures Met(w, b, more, d)
  {
  }

  lemma {:induction false} MetsGrow(w: World, a: map<string, InstallStep>, b: map<string, InstallStep>,
                                     done: seq<string>, more: seq<string>, deps: seq<Dep>)
    requires Extends(a, b) && done <= more && AllMet(w, a, done, deps)
    ensures AllMet(w, b, more, deps)
  {
    forall d | d in deps ensures Met(w, b, more, d) {
      MetGrows(w, a, b, done, more, d);
    }
  }

  lemma {:induction false} ChainGrows(w: World, root: seq<Dep>, a: map<string, InstallStep>, b: map<string, InstallStep>,
                                      chain: seq<string>)
    requires Extends(a, b) && RealChain(w, root, a, chain)
    ensures RealChain(w, root, b, chain)
    ensures DepsAt(root, b, chain) == DepsAt(root, a, chain)
  {
    forall i | 0 <= i < |chain| ensures chain[i] in a {
      assert Link(w, root, a, chain, i);
    }
    forall i | 0 <= i < |chain| ensures Link(w, root, b, chain, i) {
      assert Link(w, root, a, chain, i);
      assert DepsAt(root, b, chain[..i]) == DepsAt(root, a, chain[..i]);
    }
  }

  lemma {:induction false} JustifiedGrows(w: World, root: seq<Dep>, a: map<string, InstallStep>,
                                          b: map<string, InstallStep>, n: string)
    requires Extends(a, b) && Justified(w, root, a, n)
    ensures Justified(w, root, b, n)
  {
    var chain :| JustifiedBy(w, root, a, n, chain);
    ChainGrows(w, root, a, b, chain);
    assert JustifiedBy(w, root, b, n, chain);
  }

  lemma {:induction false} TopologicalGrows(w: World, a: map<string, InstallStep>, b: map<string, InstallStep>,
                                            order: seq<string>)
    requires Extends(a, b) && Topological(w, a, order)
    ensures Topological(w, b, order)
  {
    forall i | 0 <= i < |order|
      ensures order[i] in b && AllMet(w, b, order[..i], DepsOf(b[order[i]]))
    {
      forall d | d in DepsOf(b[order[i]]) ensures Met(w, b, order[..i], d) {
        MetGrows(w, a, b, order[..i], order[..i], d);
      }
    }
  }

  lemma {:induction false} UnfoldsGrows(w: World, a: map<string, InstallStep>, b: map<string, InstallStep>,
                                        deps: seq<Dep>, before: seq<string>, added: seq<string>)
    requires Extends(a, b) && Unfolds(w, a, deps, before, added) && forall n :: n in before ==> n in a
    ensures Unfolds(w, b, deps, before, added)
    ensures forall n :: n in added ==> n in a
    decreases |added|, |deps|
  {
    if deps != [] {
      if Met(w, a, before, deps[0]) {
        MetGrows(w, a, b, before, before, deps[0]);
        UnfoldsGrows(w, a, b, deps[1..], before, added);
      } else {
        var k :| 0 <= k < |added| && UnfoldsAt(w, a, deps, before, added, k);
        UnfoldsGrows(w, a, b, DepsOf(a[added[k]]), before, added[..k]);
        assert added == added[..k] + [added[k]] + added[k + 1..];
        UnfoldsGrows(w, a, b, deps[1..], before + added[..k + 1], added[k + 1..]);
        assert UnfoldsAt(w, b, deps, before, added, k);
      }
    }
  }

  lemma {:induction false} PickOn(w: World, chosen: map<string, InstallStep>, deps: seq<Dep>, more: seq<Dep>,
                                  before: seq<string>, added: seq<string>, next: seq<string>, k: nat)
    requires deps != [] && k < |added| && UnfoldsAt(w, chosen, deps, before, added, k)
    requires Unfolds(w, chosen, deps[1..] + more, before + added[..k + 1], added[k + 1..] + next)
    ensures UnfoldsAt(w, chosen, deps + more, before, added + next, k)
  {
    var all, whole := deps + more, added + next;
    assert all[0] == deps[0] && all[1..] == deps[1..] + more;
    assert whole[..k] == added[..k] && whole[..k + 1] == added[..k + 1] && whole[k + 1..] == added[k + 1..] + next;
  }

  lemma {:induction false} UnfoldsOn(w: World, chosen: map<string, InstallStep>, deps: seq<Dep>, more: seq<Dep>,
                                     before: seq<string>, added: seq<string>, next: seq<string>)
    requires Unfolds(w, chosen, deps, before, added) && Unfolds(w, chosen, more, before + added, next)
    ensures Unfolds(w, chosen, deps + more, before, added + next)
    decreases |added|, |deps|
  {
    var all, whole := deps + more, added + next;
    if deps == [] {
      assert all == more && whole == next && before + added == before;
    } else {
      assert all[0] == deps[0] && all[1..] == deps[1..] + more;
      if Met(w, chosen, before, deps[0]) {
        UnfoldsOn(w, chosen, deps[1..], more, before, added, next);
      } else {
        var k :| 0 <= k < |added| && UnfoldsAt(w, chosen, deps, before, added, k);
        assert before + added == before + added[..k + 1] + added[k + 1..];
        UnfoldsOn(w, chosen, deps[1..], more, before + added[..k + 1], added[k + 1..], next);
        PickOn(w, chosen, deps, more, before, added, next, k);
      }
    }
  }

  /** A dependency whose pick is finished right behind all that the pick needs. */
  lemma {:induction false} UnfoldsPick(w: World, chosen: map<string, InstallStep>, d: Dep, before: seq<string>,
                                       below: seq<string>)
    requires Wanted(w, d) && d.name !in before && d.name in chosen && PickedFor(w, d, chosen[d.name])
    requires Unfolds(w, chosen, DepsOf(chosen[d.name]), before, below)
    ensures Unfolds(w, chosen, [d], before, below + [d.name])
  {
    var added := below + [d.name];
    assert added[..|below|] == below && added[|below| + 1..] == [] && [d][1..] == [];
    assert UnfoldsAt(w, chosen, [d], before, added, |below|);
  }

  function Pushed(st: State, n: string, step: InstallStep, fetched: bool): State {
    State(st.chosen[n := step], st.inFlight + {n}, st.order, st.asked + [n],
          if fetched then st.fetched + [n] else st.fetched)
  }

  lemma {:induction false} PushBooks(st: State, chain: seq<string>, n: string, step: InstallStep, fetched: bool)
    requires Books(st, chain) && n !in st.chosen
    ensures Books(Pushed(st, n, step, fetched), chain + [n])
  {
    var below := chain + [n];
    forall m ensures m in below <==> m in chain || m == n {
    }
  }

  lemma {:induction false} ChainExtends(w: World, root: seq<Dep>, chosen: map<string, InstallStep>,
                                        chain: seq<string>, n: string)
    requires RealChain(w, root, chosen, chain) && n in chosen
    requires Picks(w, DepsAt(root, chosen, chain), n, chosen[n])
    ensures RealChain(w, root, chosen, chain + [n])
  {
    var below := chain + [n];
    forall i | 0 <= i < |below| ensures Link(w, root, chosen, below, i) {
      assert below[..i] == chain[..i];
      if i == |chain| {
        assert below[..i] == chain;
      } else {
        assert Link(w, root, chosen, chain, i);
      }
    }
  }

  lemma {:induction false} PushChain(w: World, root: seq<Dep>, a: map<string, InstallStep>, chain: seq<string>,
                                     n: string, step: InstallStep)
    requires RealChain(w, root, a, chain) && n !in a && Picks(w, DepsAt(root, a, chain), n, step)
    ensures RealChain(w, root, a[n := step], chain + [n])
    ensures DepsAt(root, a[n := step], chain + [n]) == DepsOf(step)
  {
    ChainGrows(w, root, a, a[n := step], chain);
    ChainExtends(w, root, a[n := step], chain, n);
  }

  lemma {:induction false} PushJustified(w: World, root: seq<Dep>, a: map<string, InstallStep>,
                                         b: map<string, InstallStep>, chain: seq<string>, d: Dep, step: InstallStep)
    requires RealChain(w, root, a, chain) && d in DepsAt(root, a, chain)
    requires Wanted(w, d) && PickedFor(w, d, step)
    requires d.name !in a && b == a[d.name := step]
    ensures Picks(w, DepsAt(root, a, chain), d.name, step)
    ensures Justified(w, root, b, d.name)
  {
    assert PickOf(w, DepsAt(root, a, chain), d.name, step, d);
    ChainGrows(w, root, a, b, chain);
    assert b[d.name] == step;
    assert JustifiedBy(w, root, b, d.name, chain);
  }

  lemma {:induction false} OthersJustified(w: World, root: seq<Dep>, a: map<string, InstallStep>,
                                           b: map<string, InstallStep>, name: string)
    requires forall n {:trigger Justified(w, root, a, n)} :: n in a ==> Justified(w, root, a, n)
    requires Extends(a, b) && Justified(w, root, b, name) && forall n :: n in b ==> n in a || n == name
    ensures forall n {:trigger Justified(w, root, b, n)} :: n in b ==> Justified(w, root, b, n)
  {
    forall n | n in b ensures Justified(w, root, b, n) {
      if n != name { JustifiedGrows(w, root, a, b, n); }
    }
  }

  lemma {:induction false} PushGrounded(w: World, root: seq<Dep>, a: map<string, InstallStep>,
                                        b: map<string, InstallStep>, chain: seq<string>, n: string, step: InstallStep)
    requires Grounded(w, root, a, chain) && Picks(w, DepsAt(root, a, chain), n, step)
    requires n !in a && b == a[n := step] && Justified(w, root, b, n)
    ensures Grounded(w, root, b, chain + [n])
  {
    PushChain(w, root, a, chain, n, step);
    OthersJustified(w, root, a, b, n);
  }

  /** Picking a rock for d and going below it. */
  lemma {:induction false} Push(w: World, root: seq<Dep>, st: State, chain: seq<string>, d: Dep,
                                step: InstallStep, fetched: bool)
    requires Inv(w, root, st, chain) && Picks(w, DepsAt(root, st.chosen, chain), d.name, step)
    requires d.name !in st.chosen && Justified(w, root, st.chosen[d.name := step], d.name)
    ensures Inv(w, root, Pushed(st, d.name, step, fetched), chain + [d.name])
  {
    var b := st.chosen[d.name := step];
    PushBooks(st, chain, d.name, step, fetched);
    PushGrounded(w, root, st.chosen, b, chain, d.name, step);
    TopologicalGrows(w, st.chosen, b, st.order);
  }

  function Popped(st: State, n: string): State {
    State(st.chosen, st.inFlight - {n}, st.order + [n], st.asked, st.fetched)
  }

  lemma {:induction false} PopBooks(st: State, chain: seq<string>, n: string)
    requires Books(st, chain + [n])
    ensures Books(Popped(st, n), chain)
  {
    var below, order := chain + [n], st.order + [n];
    assert below[|chain|] == n && forall i :: 0 <= i < |chain| ==> below[i] == chain[i];
    forall m ensures m in below <==> m in chain || m == n {
    }
    forall m ensures m in order <==> m in st.order || m == n {
    }
    assert n in below && n !in st.order && n !in chain;
  }

  lemma {:induction false} ChainPrefix(w: World, root: seq<Dep>, chosen: map<string, InstallStep>, chain: seq<string>, n: string)
    requires RealChain(w, root, chosen, chain + [n])
    ensures RealChain(w, root, chosen, chain)
  {
    var below := chain + [n];
    forall i | 0 <= i < |chain| ensures Link(w, root, chosen, chain, i) {
      assert Link(w, root, chosen, below, i);
      assert below[..i] == chain[..i] && below[i] == chain[i];
    }
  }

  lemma {:induction false} PopTopological(w: World, chosen: map<string, InstallStep>, order: seq<string>, n: string)
    requires Topological(w, chosen, order) && n in chosen && AllMet(w, chosen, order, DepsOf(chosen[n]))
    ensures Topological(w, chosen, order + [n])
  {
    var more := order + [n];
    forall i | 0 <= i < |more|
      ensures more[i] in chosen && AllMet(w, chosen, more[..i], DepsOf(chosen[more[i]]))
    {
      assert more[..i] == order[..i];
      if i == |order| {
        assert order[..i] == order;
      }
    }
  }

  /** Coming back from below n, all of whose dependencies are met. */
  lemma {:induction false} Pop(w: World, root: seq<Dep>, st: State, chain: seq<string>, n: string)
    requires Inv(w, root, st, chain + [n])
    requires n in st.chosen && AllMet(w, st.chosen, st.order, DepsOf(st.chosen[n]))
    ensures Inv(w, root, Popped(st, n), chain)
  {
    PopBooks(st, chain, n);
    ChainPrefix(w, root, st.chosen, chain, n);
    PopTopological(w, st.chosen, st.order, n);
  }

  // ---- the resolver ----------------------------------------------------------

  /** One more dependency of a list unfolds behind the ones before it. */
  lemma {:induction false} UnfoldsNext(w: World, a: map<string, InstallStep>, b: map<string, InstallStep>,
                                       deps: seq<Dep>, d: Dep, start: seq<string>, done: seq<string>, order: seq<string>)
    requires Extends(a, b) && forall n :: n in start ==> n in a
    requires Since(w, a, deps, start, done) && Since(w, b, [d], done, order)
    ensures Since(w, b, deps + [d], start, order)
  {
    var added, next := done[|start|..], order[|done|..];
    UnfoldsGrows(w, a, b, deps, start, added);
    assert start + added == done;
    UnfoldsOn(w, b, deps, [d], start, added, next);
    assert order[|start|..] == added + next;
  }

  /** What WalkOne needs of a dependency that is neither provided nor installed. */
  lemma {:induction false} NoVersionMatches(candidates: seq<VersionedRock>, cs: seq<Constraint>)
    requires SortPick(Matching(candidates, cs)).Nothing?
    ensures forall r :: r in candidates ==> !Match(r.version, cs)
  {
    assert forall r :: r in candidates && Match(r.version, cs) ==> r in Matching(candidates, cs);
  }

  /** A picked rock matches the dependency it was picked for. */
  lemma {:induction false} PickedMatches(w: World, d: Dep, step: InstallStep)
    requires PickedFor(w, d, step)
    ensures Match(step.version, d.constraints)
  {
    var m := Matching(w.query(d.name, d.namespace).value, d.constraints);
    Sorting.SortedElements(Newer, m);
    assert Sorting.Sorted(Newer, m)[0] in m;
  }

  /** Everything below d's rock and the rock itself are finished: d is met. */
  lemma {:induction false} FinishedMeets(w: World, chosen: map<string, InstallStep>, d: Dep, step: InstallStep,
                                         start: seq<string>, order: seq<string>)
    requires Wanted(w, d) && d.name !in start && PickedFor(w, d, step)
    requires d.name in chosen && chosen[d.name] == step
    requires order != [] && order[|order| - 1] == d.name
    requires Since(w, chosen, DepsOf(step), start, order[..|order| - 1])
    ensures Met(w, chosen, order, d) && Since(w, chosen, [d], start, order)
  {
    var below := order[..|order| - 1][|start|..];
    UnfoldsPick(w, chosen, d, start, below);
    assert order[|start|..] == below + [d.name];
    PickedMatches(w, d, step);
  }

  /** The state below a fresh pick. */
  lemma {:induction false} Below(w: World, root: seq<Dep>, names: set<string>, st: State, chain: seq<string>, d: Dep,
                                 step: InstallStep, fetched: bool)
    requires Inv(w, root, st, chain) && d in DepsAt(root, st.chosen, chain)
    requires Closed(w, names) && d.name in names
    requires Wanted(w, d) && d.name !in st.chosen && PickedFor(w, d, step)
    ensures Inv(w, root, Pushed(st, d.name, step, fetched), chain + [d.name])
    ensures forall e :: e in DepsOf(step) ==> e.name in names
  {
    PushJustified(w, root, st.chosen, st.chosen[d.name := step], chain, d, step);
    Push(w, root, st, chain, d, step, fetched);
  }

  class Resolver {
    const w: World
    const root: seq<Dep>
    ghost const names: set<string>
    var chosen: map<string, InstallStep>
    var inFlight: set<string>
    var order: seq<string>
    ghost var asked: seq<string>
    ghost var fetched: seq<string>

    constructor (w: World, root: seq<Dep>, ghost names: set<string>)
      ensures this.w == w && this.root == root && this.names == names
      ensures Inv(w, root, St(), []) && order == [] && chosen == map[]
    {
      this.w, this.root, this.names := w, root, names;
      chosen, inFlight, order, asked, fetched := map[], {}, [], [], [];
    }

    ghost function St(): State
      reads this
    {
      State(chosen, inFlight, order, asked, fetched)
    }

    /** The walk below chain goes through deps, all named in the universe. */
    ghost predicate Walking(chain: seq<string>)
      reads this
    {
      && Closed(w, names) && (forall d :: d in root ==> d.name in names)
      && Inv(w, root, St(), chain)
    }

    /** What was finished since unfolds deps. */
    twostate predicate Unfolded(deps: seq<Dep>)
      reads this
    {
      Since(w, chosen, deps, old(order), order)
    }

    /** Nothing finished is undone. */
    twostate predicate Grown()
      reads this
    {
      Extends(old(chosen), chosen) && old(order) <= order
    }

    method InstalledSatisfies(d: Dep) returns (ok: bool)
      ensures ok == InstalledMeets(w, d)
    {
      var versions := w.installed(d.name);
      for i := 0 to |versions|
        invariant forall j :: 0 <= j < i ==> !Match(versions[j], d.constraints)
      {
        if Match(versions[i], d.constraints) {
          return true;
        }
      }
      return false;
    }

    /** Queries the index for d, picks the newest match and fetches its rockspec. */
    method PickRock(d: Dep) returns (r: Maybe<InstallStep>, e: Error)
      requires NoDuplicates(asked) && NoDuplicates(fetched) && d.name !in asked && d.name !in fetched
      modifies this`asked, this`fetched
      ensures asked == old(asked) + [d.name]
      ensures fetched == old(fetched) || fetched == old(fetched) + [d.name]
      ensures NoDuplicates(asked) && NoDuplicates(fetched)
      ensures r.Just? ==> PickedFor(w, d, r.value)
      ensures r.Nothing? ==> PickFails(w, d, e)
    {
      asked := asked + [d.name];
      var candidates := w.query(d.name, d.namespace);
      if candidates.Nothing? {
        return Nothing, QueryFailed(d);
      }
      var picked := SortedNewest(candidates.value, d.constraints);
      if picked.Nothing? {
        NoVersionMatches(candidates.value, d.constraints);
        return Nothing, NoVersion(d);
      }
      if picked.value.spec.Nothing? && w.fetch.Just? {
        fetched := fetched + [d.name];
      }
      return StepFor(w, picked.value), FetchFailed(d);
    }

    method Walk(deps: seq<Dep>, chain: seq<string>) returns (r: Maybe<Error>)
      requires Walking(chain) && deps == DepsAt(root, chosen, chain)
      requires forall d :: d in deps ==> d.name in names
      modifies this
      ensures OnceEach(St())
      ensures r.Nothing? ==> Walking(chain) && Grown() && AllMet(w, chosen, order, deps) && Unfolded(deps)
      ensures r.Just? ==> Truthful(w, root, chosen, order, r.value)
      decreases names - chosen.Keys, 2
    {
      var i := 0;
      while i < |deps|
        invariant i <= |deps| && Walking(chain) && Grown()
        invariant deps == DepsAt(root, chosen, chain)
        invariant AllMet(w, chosen, order, deps[..i]) && Unfolded(deps[..i])
      {
        assert deps[..i + 1] == deps[..i] + [deps[i]];
        ghost var before, done := chosen, order;
        r := WalkOne(deps[i], chain);
        if r.Just? {
          return;
        }
        MetsGrow(w, before, chosen, done, order, deps[..i]);
        ChainGrows(w, root, before, chosen, chain);
        UnfoldsNext(w, before, chosen, deps[..i], deps[i], old(order), done, order);
        i := i + 1;
      }
      assert deps[..i] == deps;
      return Nothing;
    }

    /** One turn of walk's loop. */
    method WalkOne(d: Dep, chain: seq<string>) returns (r: Maybe<Error>)
      requires Walking(chain) && ComesTo(w, chosen, order, DepsAt(root, chosen, chain), d) && d.name in names
      modifies this
      ensures OnceEach(St())
      ensures r.Nothing? ==> Walking(chain) && Grown() && Met(w, chosen, order, d) && Unfolded([d])
      ensures (Wanted(w, d) && d.name !in old(chosen)) || St() == old(St())
      ensures r.Just? ==> Truthful(w, root, chosen, order, r.value)
      decreases names - chosen.Keys, 1
    {
      var cancelled: bool := *;
      if cancelled {
        StopsTruthfully(w, root, St(), chain, d, Cancelled);
        return Just(Cancelled);
      }
      if d.name in w.provided {
        if Match(w.provided[d.name], d.constraints) {
          return Nothing;
        }
        StopsTruthfully(w, root, St(), chain, d, Unprovidable(d));
        return Just(Unprovidable(d));
      }
      var installed := InstalledSatisfies(d);
      if installed {
        return Nothing;
      }
      if d.name in inFlight {
        StopsTruthfully(w, root, St(), chain, d, Cycle(d.name, chain + [d.name]));
        return Just(Cycle(d.name, chain + [d.name]));
      }
      if d.name in chosen {
        var existing := chosen[d.name];
        if !Match(existing.version, d.constraints) {
          StopsTruthfully(w, root, St(), chain, d, Conflict(d, existing.version));
          return Just(Conflict(d, existing.version));
        }
        return Nothing;
      }
      r := WalkBelow(d, chain);
    }

    /** Picks a rock for d and walks its dependencies before recording it. */
    method WalkBelow(d: Dep, chain: seq<string>) returns (r: Maybe<Error>)
      requires Walking(chain) && ComesTo(w, chosen, order, DepsAt(root, chosen, chain), d) && d.name in names
      requires Wanted(w, d) && d.name !in chosen
      modifies this
      ensures OnceEach(St())
      ensures r.Nothing? ==> Walking(chain) && Grown() && Met(w, chosen, order, d) && Unfolded([d])
      ensures r.Just? ==> Truthful(w, root, chosen, order, r.value)
      decreases names - chosen.Keys, 0
    {
      assert d.name !in order;
      var step, e := Enter(d, chain);
      if step.Nothing? {
        return Just(e);
      }
      r := Finish(d, step.value, chain);
    }

    /** Marks d's name, picks a rock for it and enters the rock. */
    method Enter(d: Dep, chain: seq<string>) returns (step: Maybe<InstallStep>, e: Error)
      requires Walking(chain) && ComesTo(w, chosen, order, DepsAt(root, chosen, chain), d) && d.name in names
      requires Wanted(w, d) && d.name !in chosen
      modifies this`inFlight, this`asked, this`fetched, this`chosen
      ensures step.Just? ==>
        && Walking(chain + [d.name]) && chosen == old(chosen)[d.name := step.value]
        && PickedFor(w, d, step.value) && forall x :: x in DepsOf(step.value) ==> x.name in names
      ensures step.Nothing? ==> OnceEach(St()) && Truthful(w, root, chosen, order, e)
    {
      ghost var st := St();
      inFlight := inFlight + {d.name};
      step, e := PickRock(d);
      if step.Nothing? {
        StopsTruthfully(w, root, st, chain, d, e);
        return;
      }
      chosen := chosen[d.name := step.value];
      Below(w, root, names, st, chain, d, step.value, fetched != st.fetched);
      assert St() == Pushed(st, d.name, step.value, fetched != st.fetched);
    }

    /** Walks the dependencies of the rock just picked for d, then records it: d is met. */
    method Finish(d: Dep, step: InstallStep, chain: seq<string>) returns (r: Maybe<Error>)
      requires Walking(chain + [d.name]) && d.name in chosen && chosen[d.name] == step
      requires Wanted(w, d) && d.name !in order && PickedFor(w, d, step)
      requires forall x :: x in DepsOf(step) ==> x.name in names
      modifies this
      ensures OnceEach(St())
      ensures r.Nothing? ==> Walking(chain) && Grown() && Met(w, chosen, order, d) && Unfolded([d])
      ensures r.Just? ==> Truthful(w, root, chosen, order, r.value)
      decreases names - chosen.Keys, 4
    {
      r := WalkRock(d.name, step, chain);
      if r.Nothing? {
        Record(d.name, chain);
        FinishedMeets(w, chosen, d, step, old(order), order);
      }
    }

    /** Walks the dependencies of the rock picked for n, if its rockspec is known. */
    method WalkRock(n: string, step: InstallStep, chain: seq<string>) returns (r: Maybe<Error>)
      requires Walking(chain + [n]) && n in chosen && chosen[n] == step
      requires forall d :: d in DepsOf(step) ==> d.name in names
      modifies this
      ensures OnceEach(St())
      ensures r.Nothing? ==>
        Walking(chain + [n]) && Grown() && AllMet(w, chosen, order, DepsOf(step)) && Unfolded(DepsOf(step))
      ensures r.Just? ==> Truthful(w, root, chosen, order, r.value)
      decreases names - chosen.Keys, 3
    {
      if step.rockspec.Just? {
        assert DepsAt(root, chosen, chain + [n]) == DepsOf(step);
        r := Walk(step.rockspec.value.dependencies, chain + [n]);
      } else {
        r := Nothing;
      }
    }

    /** The chosen steps in the order they were finished. */
    method Steps() returns (out: seq<InstallStep>)
      requires forall i :: 0 <= i < |order| ==> order[i] in chosen
      ensures |out| == |order| && forall i :: 0 <= i < |order| ==> out[i] == chosen[order[i]]
    {
      out := [];
      for i := 0 to |order|
        invariant |out| == i && forall j :: 0 <= j < i ==> out[j] == chosen[order[j]]
      {
        out := out + [chosen[order[i]]];
      }
    }

    /** Post-order: n leaves the chain once all its dependencies are met. */
    method Record(n: string, chain: seq<string>)
      requires Walking(chain + [n]) && n in chosen && AllMet(w, chosen, order, DepsOf(chosen[n]))
      modifies this`inFlight, this`order
      ensures Walking(chain) && order == old(order) + [n]
    {
      Pop(w, root, St(), chain, n);
      ghost var popped := Popped(St(), n);
      inFlight := inFlight - {n};
      order := order + [n];
      assert St() == popped;
    }
  }

  // ---- plans -----------------------------------------------------------------

  datatype Outcome = Plan(steps: seq<InstallStep>) | Failed(error: Error)

  /** steps[i] was chosen for names[i], and the whole is a plan for root. */
  ghost predicate PlanFor(w: World, root: seq<Dep>, names: seq<string>, steps: seq<InstallStep>) {
    && |names| == |steps| && NoDuplicates(names)
    && exists chosen :: ChoiceOf(w, root, names, steps, chosen)
  }

  ghost predicate ChoiceOf(w: World, root: seq<Dep>, names: seq<string>, steps: seq<InstallStep>,
                           chosen: map<string, InstallStep>)
    requires |names| == |steps|
  {
    && (forall n :: n in chosen <==> n in names)
    && (forall i :: 0 <= i < |names| ==> names[i] in chosen && chosen[names[i]] == steps[i])
    && Topological(w, chosen, names)
    && AllMet(w, chosen, names, root)
    && Unfolds(w, chosen, root, [], names)
    && (forall n {:trigger Justified(w, root, chosen, n)} :: n in chosen ==> Justified(w, root, chosen, n))
  }

  /** deps.Resolve: the steps in post-order, or the first error, which is true of the
      picks made so far.  names are the rocks finished.  Each name is asked for at most
      once either way. */
  method Resolve(root: Maybe<Rockspec>, w: World, ghost universe: set<string>)
    returns (r: Outcome, ghost picks: map<string, InstallStep>, ghost names: seq<string>,
             ghost asked: seq<string>, ghost fetched: seq<string>)
    requires Closed(w, universe)
    requires root.Just? ==> forall d :: d in root.value.dependencies ==> d.name in universe
    ensures root.Nothing? <==> r == Failed(NilRoot)
    ensures r.Plan? ==> PlanFor(w, root.value.dependencies, names, r.steps)
    ensures r.Failed? && root.Just? ==> Truthful(w, root.value.dependencies, picks, names, r.error)
    ensures NoDuplicates(asked) && NoDuplicates(fetched)
  {
    picks, names, asked, fetched := map[], [], [], [];
    if root.Nothing? {
      return Failed(NilRoot), picks, names, asked, fetched;
    }
    var deps := root.value.dependencies;
    var resolver := new Resolver(w, deps, universe);
    var e := resolver.Walk(deps, []);
    picks, names, asked, fetched := resolver.chosen, resolver.order, resolver.asked, resolver.fetched;
    if e.Just? {
      return Failed(e.value), picks, names, asked, fetched;
    }
    var out := resolver.Steps();
    assert names[0..] == names;
    assert ChoiceOf(w, deps, names, out, resolver.chosen);
    return Plan(out), picks, names, asked, fetched;
  }

  /** path goes from a dependency of the root through the plan, each step the pick for a
      dependency of the step before it. */
  ghost predicate Path(w: World, root: seq<Dep>, steps: seq<InstallStep>, path: seq<nat>) {
    forall k :: 0 <= k < |path| ==> Hop(w, root, steps, path, k)
  }

  ghost predicate Hop(w: World, root: seq<Dep>, steps: seq<InstallStep>, path: seq<nat>, k: nat)
    requires k < |path|
  {
    && path[k] < |steps| && (k > 0 ==> path[k - 1] < |steps|)
    && Picks(w, if k == 0 then root else DepsOf(steps[path[k - 1]]), steps[path[k]].name, steps[path[k]])
  }

  ghost predicate EndsAt(path: seq<nat>, i: nat) {
    path != [] && path[|path| - 1] == i
  }

  ghost predicate Reached(w: World, root: seq<Dep>, steps: seq<InstallStep>, i: nat) {
    exists path :: EndsAt(path, i) && Path(w, root, steps, path)
  }

  /** Index rows carry the name they were asked for. */
  ghost predicate Honest(w: World) {
    forall d: Dep, step: InstallStep :: PickedFor(w, d, step) ==> step.name == d.name
  }

  /** A step of the plan that is of the right name and version for d. */
  ghost predicate Provides(steps: seq<InstallStep>, k: nat, d: Dep) {
    k < |steps| && steps[k].name == d.name && Match(steps[k].version, d.constraints)
  }

  ghost predicate StepBefore(steps: seq<InstallStep>, n: nat, d: Dep) {
    exists k :: 0 <= k < n && Provides(steps, k, d)
  }

  /** Each of deps is met: by the version that the VM provides; else by an installed rock
      or by a matching step among the first n. */
  ghost predicate MetBefore(w: World, steps: seq<InstallStep>, n: nat, deps: seq<Dep>) {
    forall d :: d in deps ==>
      if d.name in w.provided then Match(w.provided[d.name], d.constraints)
      else InstalledMeets(w, d) || StepBefore(steps, n, d)
  }

  lemma {:induction false} StepNames(w: World, root: seq<Dep>, names: seq<string>, steps: seq<InstallStep>,
                                     chosen: map<string, InstallStep>)
    requires Honest(w) && |names| == |steps| && ChoiceOf(w, root, names, steps, chosen)
    ensures forall i :: 0 <= i < |steps| ==> steps[i].name == names[i] && steps[i].name !in w.provided
  {
    forall i | 0 <= i < |steps| ensures steps[i].name == names[i] && steps[i].name !in w.provided {
      assert Justified(w, root, chosen, names[i]);
      var chain :| JustifiedBy(w, root, chosen, names[i], chain);
      var d :| PickOf(w, DepsAt(root, chosen, chain), names[i], steps[i], d);
    }
  }

  /** steps are the choices for names. */
  ghost predicate Chosen(names: seq<string>, steps: seq<InstallStep>, chosen: map<string, InstallStep>) {
    && |names| == |steps| && (forall n :: n in chosen ==> n in names)
    && (forall i :: 0 <= i < |names| ==> names[i] in chosen && chosen[names[i]] == steps[i])
    && (forall i :: 0 <= i < |steps| ==> steps[i].name == names[i])
  }

  ghost predicate Indexes(names: seq<string>, chain: seq<string>, path: seq<nat>) {
    |path| == |chain| && forall k :: 0 <= k < |path| ==> path[k] < |names| && names[path[k]] == chain[k]
  }

  /** A link of a chain is a hop between the steps chosen for its names. */
  lemma {:induction false} LinkIsHop(w: World, root: seq<Dep>, names: seq<string>, steps: seq<InstallStep>,
                                     chosen: map<string, InstallStep>, chain: seq<string>, path: seq<nat>, k: nat)
    requires Chosen(names, steps, chosen) && Indexes(names, chain, path)
    requires k < |chain| && Link(w, root, chosen, chain, k)
    ensures Hop(w, root, steps, path, k)
  {
    if k > 0 {
      assert chain[..k][k - 1] == chain[k - 1] == names[path[k - 1]];
    }
  }

  lemma {:induction false} IndexChain(names: seq<string>, chain: seq<string>) returns (path: seq<nat>)
    requires forall k :: 0 <= k < |chain| ==> chain[k] in names
    ensures Indexes(names, chain, path)
  {
    if chain == [] {
      path := [];
    } else {
      var n := |chain| - 1;
      path := IndexChain(names, chain[..n]);
      assert chain[n] in names;
      var j :| 0 <= j < |names| && names[j] == chain[n];
      path := path + [j];
    }
  }

  lemma {:induction false} ChainNames(w: World, root: seq<Dep>, names: seq<string>, steps: seq<InstallStep>,
                                      chosen: map<string, InstallStep>, chain: seq<string>)
    requires Chosen(names, steps, chosen) && RealChain(w, root, chosen, chain)
    ensures forall k :: 0 <= k < |chain| ==> chain[k] in names
  {
    forall k | 0 <= k < |chain| ensures chain[k] in names {
      assert Link(w, root, chosen, chain, k);
    }
  }

  lemma {:induction false} ChainPath(w: World, root: seq<Dep>, names: seq<string>, steps: seq<InstallStep>,
                                     chosen: map<string, InstallStep>, chain: seq<string>, path: seq<nat>)
    requires Chosen(names, steps, chosen) && Indexes(names, chain, path) && RealChain(w, root, chosen, chain)
    ensures Path(w, root, steps, path)
  {
    forall k | 0 <= k < |path| ensures Hop(w, root, steps, path, k) {
      assert Link(w, root, chosen, chain, k);
      LinkIsHop(w, root, names, steps, chosen, chain, path, k);
    }
  }

  lemma {:induction false} IndexNext(names: seq<string>, chain: seq<string>, init: seq<nat>, i: nat)
    requires Indexes(names, chain, init) && i < |names|
    ensures Indexes(names, chain + [names[i]], init + [i])
  {
  }

  lemma {:induction false} StepReached(w: World, root: seq<Dep>, names: seq<string>, steps: seq<InstallStep>,
                                       chosen: map<string, InstallStep>, chain: seq<string>, i: nat)
    requires Chosen(names, steps, chosen) && i < |steps| && JustifiedBy(w, root, chosen, names[i], chain)
    ensures Reached(w, root, steps, i)
  {
    ChainExtends(w, root, chosen, chain, names[i]);
    ChainNames(w, root, names, steps, chosen, chain);
    var init := IndexChain(names, chain);
    IndexNext(names, chain, init, i);
    ChainPath(w, root, names, steps, chosen, chain + [names[i]], init + [i]);
    assert EndsAt(init + [i], i);
  }

  lemma {:induction false} PlanReaches(w: World, root: seq<Dep>, names: seq<string>, steps: seq<InstallStep>,
                                       chosen: map<string, InstallStep>)
    requires Chosen(names, steps, chosen)
    requires forall n {:trigger Justified(w, root, chosen, n)} :: n in chosen ==> Justified(w, root, chosen, n)
    ensures forall i :: 0 <= i < |steps| ==> Reached(w, root, steps, i)
  {
    forall i | 0 <= i < |steps| ensures Reached(w, root, steps, i) {
      assert Justified(w, root, chosen, names[i]);
      var chain :| JustifiedBy(w, root, chosen, names[i], chain);
      StepReached(w, root, names, steps, chosen, chain, i);
    }
  }

  lemma {:induction false} MetBySteps(w: World, names: seq<string>, steps: seq<InstallStep>,
                                      chosen: map<string, InstallStep>, n: nat, deps: seq<Dep>)
    requires Chosen(names, steps, chosen) && n <= |names| && AllMet(w, chosen, names[..n], deps)
    ensures MetBefore(w, steps, n, deps)
  {
    forall d | d in deps
      ensures if d.name in w.provided then Match(w.provided[d.name], d.constraints)
              else InstalledMeets(w, d) || StepBefore(steps, n, d)
    {
      assert Met(w, chosen, names[..n], d);
      if d.name !in w.provided && !InstalledMeets(w, d) {
        var k :| 0 <= k < n && names[..n][k] == d.name;
        assert Provides(steps, k, d);
      }
    }
  }

  lemma {:induction false} PlanMeets(w: World, names: seq<string>, steps: seq<InstallStep>,
                                     chosen: map<string, InstallStep>)
    requires Chosen(names, steps, chosen) && Topological(w, chosen, names)
    ensures forall i :: 0 <= i < |steps| ==> MetBefore(w, steps, i, DepsOf(steps[i]))
  {
    forall i | 0 <= i < |steps| ensures MetBefore(w, steps, i, DepsOf(steps[i])) {
      MetBySteps(w, names, steps, chosen, i, DepsOf(chosen[names[i]]));
    }
  }

  lemma {:induction false} RootMeets(w: World, names: seq<string>, steps: seq<InstallStep>,
                                     chosen: map<string, InstallStep>, root: seq<Dep>)
    requires Chosen(names, steps, chosen) && AllMet(w, chosen, names, root)
    ensures MetBefore(w, steps, |steps|, root)
  {
    assert names[..|names|] == names;
    MetBySteps(w, names, steps, chosen, |names|, root);
  }

  /** The plan read by step: no rock twice and none the VM provides; every dependency
      of the root or of a step is met by the VM, by the tree or by a matching step before
      it; and every step is reached from the root by such dependencies,
      each the index's pick for one. */
  lemma {:induction false} PlanIsSound(w: World, root: seq<Dep>, names: seq<string>, steps: seq<InstallStep>)
    requires Honest(w) && PlanFor(w, root, names, steps)
    ensures forall i, j :: 0 <= i < j < |steps| ==> steps[i].name != steps[j].name
    ensures forall i :: 0 <= i < |steps| ==> steps[i].name !in w.provided && Reached(w, root, steps, i)
    ensures forall i :: 0 <= i < |steps| ==> MetBefore(w, steps, i, DepsOf(steps[i]))
    ensures MetBefore(w, steps, |steps|, root)
  {
    var chosen :| ChoiceOf(w, root, names, steps, chosen);
    StepNames(w, root, names, steps, chosen);
    PlanReaches(w, root, names, steps, chosen);
    PlanMeets(w, names, steps, chosen);
    RootMeets(w, names, steps, chosen, root);
  }

  lemma {:induction false} NextPick(w: World, root: seq<Dep>, picks: map<string, InstallStep>, chain: seq<string>, k: nat)
    requires RealChain(w, root, picks, chain) && k < |chain|
    ensures chain[k] in picks
    ensures k > 0 ==> chain[k - 1] in picks && Picks(w, DepsOf(picks[chain[k - 1]]), chain[k], picks[chain[k]])
  {
    assert Link(w, root, picks, chain, k);
    if k > 0 {
      assert Link(w, root, picks, chain, k - 1);
      assert chain[..k][k - 1] == chain[k - 1];
    }
  }

  ghost predicate ClosesAt(w: World, deps: seq<Dep>, name: string, d: Dep) {
    d in deps && d.name == name && Wanted(w, d)
  }

  ghost predicate Closes(w: World, deps: seq<Dep>, name: string) {
    exists d :: ClosesAt(w, deps, name, d)
  }

  /** The rocks of loop follow each other as picks, and the last one needs the first. */
  ghost predicate PickedLoop(w: World, picks: map<string, InstallStep>, loop: seq<string>) {
    && loop != [] && (forall n :: n in loop ==> n in picks)
    && (forall i :: 0 < i < |loop| ==> Picks(w, DepsOf(picks[loop[i - 1]]), loop[i], picks[loop[i]]))
    && Closes(w, DepsOf(picks[loop[|loop| - 1]]), loop[0])
  }

  lemma {:induction false} LoopOf(w: World, root: seq<Dep>, picks: map<string, InstallStep>,
                                  lead: seq<string>, loop: seq<string>, d: Dep)
    requires RealChain(w, root, picks, lead + loop) && loop != []
    requires ClosesAt(w, DepsAt(root, picks, lead + loop), loop[0], d)
    ensures PickedLoop(w, picks, loop)
  {
    var k := |lead|;
    forall i | 0 <= i < |loop| ensures loop[i] in picks {
      NextPick(w, root, picks, lead + loop, k + i);
    }
    forall i | 0 < i < |loop| ensures Picks(w, DepsOf(picks[loop[i - 1]]), loop[i], picks[loop[i]]) {
      NextPick(w, root, picks, lead + loop, k + i);
    }
    assert ClosesAt(w, DepsOf(picks[loop[|loop| - 1]]), loop[0], d);
  }

  /** A reported cycle is one: lead goes from the root to the loop and the loop back to
      name, every rock on the way being what the index gives for a dependency of the
      one before it, and none of them finished. */
  lemma {:induction false} CycleIsReal(w: World, root: seq<Dep>, picks: map<string, InstallStep>,
                                       order: seq<string>, name: string, c: seq<string>)
    returns (lead: seq<string>, loop: seq<string>)
    requires Truthful(w, root, picks, order, Cycle(name, c))
    ensures c == lead + loop + [name] && loop != [] && loop[0] == name && NoDuplicates(lead + loop)
    ensures RealChain(w, root, picks, lead + loop) && PickedLoop(w, picks, loop)
    ensures forall n :: n in loop ==> n !in order
  {
    var chain, d :| TruthfulAt(w, root, picks, order, Cycle(name, c), chain, d);
    var k :| 0 <= k < |chain| && chain[k] == name;
    lead, loop := chain[..k], chain[k..];
    assert chain == lead + loop && forall n :: n in loop ==> n in chain;
    LoopOf(w, root, picks, lead, loop, d);
  }
}
