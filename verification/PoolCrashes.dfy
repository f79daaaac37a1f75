/** When the WaitGroup that the calls of client/lua.go share panics. */
module PoolCrashes {
  import opened VMPool

  /** The call starts its warm-up at counter zero while another call that waited has not
      come back from its wait. */
  predicate Overlaps(s: State, e: Event) {
    && e.Spawn? && Enabled(s, e) && s.pending == 0
    && exists c :: 0 <= c < |s.calls| && InWait(s.calls[c])
  }

  predicate InWait(pc: CallPc) {
    pc.Blocked? || pc.Woken?
  }

  /** Some event of the run overlaps. */
  predicate Overlapping(s: State, es: seq<Event>)
    requires Possible(s, es)
    decreases |es|
  {
    es != [] && (Overlaps(s, es[0]) || Overlapping(Next(s, es[0]), es[1..]))
  }

  /** Woken calls find the WaitGroup unused. */
  predicate Quiet(s: State) {
    (exists c :: 0 <= c < |s.calls| && s.calls[c].Woken?) ==> !WaitPanics(s)
  }

  lemma {:induction false} QuietWarm(s: State, e: Event)
    requires Inv(s) && Quiet(s) && Enabled(s, e) && OfWarmUp(e) && !e.Wake?
    ensures Quiet(Next(s, e))
  {
    assert Next(s, e).calls == s.calls;
  }

  lemma {:induction false} QuietWake(s: State, w: nat)
    requires Inv(s) && Enabled(s, Wake(w))
    ensures Quiet(Next(s, Wake(w)))
  {
    assert !SomeBlocked(Released(s.calls));
  }

  lemma BlockedIsInWait(calls: seq<CallPc>)
    requires SomeBlocked(calls)
    ensures exists c :: 0 <= c < |calls| && InWait(calls[c])
  {
    var c :| 0 <= c < |calls| && calls[c].Blocked?;
    assert InWait(calls[c]);
  }

  lemma {:induction false} NoPanic(s: State, e: Event)
    requires Quiet(s) && Enabled(s, e) && !Overlaps(s, e)
    ensures !Next(s, e).crashed && Next(s, e) == Moving(s, e)
  {
    if SomeBlocked(s.calls) { BlockedIsInWait(s.calls); }
  }

  lemma {:induction false} QuietMoved(s: State, c: nat, pc: CallPc)
    requires Quiet(s) && c < |s.calls| && !pc.Woken? && (pc.Blocked? ==> s.pending > 0)
    ensures Quiet(Moved(s, c, pc))
  {
    var t := Moved(s, c, pc);
    if exists d :: 0 <= d < |t.calls| && t.calls[d].Woken? {
      var d :| 0 <= d < |t.calls| && t.calls[d].Woken?;
      assert s.calls[d].Woken?;
      forall k | 0 <= k < |t.calls| ensures !t.calls[k].Blocked? {
        assert !s.calls[k].Blocked?;
      }
    }
  }

  lemma {:induction false} QuietSpawn(s: State, c: nat)
    requires Quiet(s) && Enabled(s, Spawn(c)) && !Overlaps(s, Spawn(c))
    ensures Quiet(Moving(s, Spawn(c)))
  {
    var t := Moving(s, Spawn(c));
    forall d | 0 <= d < |t.calls| ensures !t.calls[d].Woken? {
      if s.calls[d].Woken? { assert InWait(s.calls[d]); }
    }
  }

  lemma {:induction false} QuietEntered(s: State)
    requires Quiet(s) && !s.crashed
    ensures Quiet(Moving(s, Call))
  {
    var t := Moving(s, Call);
    if exists d :: 0 <= d < |t.calls| && t.calls[d].Woken? {
      var d :| 0 <= d < |t.calls| && t.calls[d].Woken?;
      assert s.calls[d].Woken?;
    }
  }

  /** What a step of a call leaves to the waiters. */
  lemma {:induction false} SameForWaiters(s: State, t: State)
    requires Quiet(s) && t.calls == s.calls && t.pending == s.pending
    ensures Quiet(t)
  {
  }

  lemma {:induction false} QuietCall(s: State, e: Event)
    requires Quiet(s) && Enabled(s, e) && !OfWarmUp(e) && !Overlaps(s, e)
    ensures Quiet(Moving(s, e))
  {
    if e.Call? {
      QuietEntered(s);
    } else if e.Spawn? {
      QuietSpawn(s, e.c);
    } else {
      var pc := Moving(s, e).calls[e.c];
      QuietMoved(s, e.c, pc);
      SameForWaiters(Moved(s, e.c, pc), Moving(s, e));
    }
  }

  lemma {:induction false} QuietStep(s: State, e: Event)
    requires Inv(s) && Quiet(s) && Enabled(s, e) && !Overlaps(s, e)
    ensures Quiet(Next(s, e)) && !Next(s, e).crashed
  {
    NoPanic(s, e);
    if e.Wake? {
      QuietWake(s, e.w);
    } else if OfWarmUp(e) {
      QuietWarm(s, e);
    } else {
      QuietCall(s, e);
    }
  }

  lemma {:induction false} QuietRun(s: State, es: seq<Event>)
    requires Inv(s) && Quiet(s) && !s.crashed && Possible(s, es) && !Overlapping(s, es)
    ensures Quiet(After(s, es)) && !After(s, es).crashed
    decreases |es|
  {
    if es != [] {
      QuietStep(s, es[0]);
      StepKeeps(s, es[0]);
      QuietRun(Next(s, es[0]), es[1..]);
    }
  }

  /** No run panics in which no warm-up starts at zero during another call's wait. */
  lemma {:induction false} CrashNeedsOverlap(es: seq<Event>)
    requires Possible(COLD, es) && After(COLD, es).crashed
    ensures Overlapping(COLD, es)
  {
    if !Overlapping(COLD, es) {
      ColdIsOwned();
      QuietRun(COLD, es);
    }
  }

  lemma {:induction false} OneEvent(s: State, e: Event)
    requires Enabled(s, e)
    ensures Possible(s, [e]) && After(s, [e]) == Next(s, e)
  {
    assert [e][1..] == [];
  }

  lemma {:induction false} FirstEvent(s: State, e: Event, es: seq<Event>)
    requires Enabled(s, e) && Possible(Next(s, e), es)
    ensures Possible(s, [e] + es) && After(s, [e] + es) == After(Next(s, e), es)
  {
    assert ([e] + es)[0] == e && ([e] + es)[1..] == es;
  }

  /** One that does can panic at once: in Add itself, or when the woken call is the next
      to run. */
  lemma {:induction false} OverlapCanCrash(s: State, e: Event) returns (more: seq<Event>)
    requires Overlaps(s, e)
    ensures |more| <= 1 && WithoutCalls(more) && Possible(s, [e] + more) && After(s, [e] + more).crashed
  {
    var t := Next(s, e);
    if SomeBlocked(s.calls) {
      more := [];
      assert Possible(t, []);
    } else {
      var c :| 0 <= c < |s.calls| && InWait(s.calls[c]);
      assert !SomeBlocked(s.calls) && s.calls[c].Woken?;
      assert t.calls[c].Woken? && t.pending == 1;
      more := [Return(c)];
      OneEvent(t, Return(c));
    }
    FirstEvent(s, e, more);
  }

  // ---- which states can panic ------------------------------------------------

  /** The calls under way can bring about a panic by themselves. */
  ghost predicate CanCrash(s: State) {
    exists es :: Possible(s, es) && WithoutCalls(es) && After(s, es).crashed
  }

  /** The call has its warm-up still to start. */
  predicate ToSpawn(pc: CallPc) {
    pc.Entered? || pc.Inline? || pc.Holding?
  }

  /** The call has started its warm-up and has not come to its wait. */
  predicate ToWait(pc: CallPc) {
    pc.Ready? || pc.Running? || pc.Leaving?
  }

  /** Call c can start its warm-up at zero during the wait of call d. */
  predicate DangerBetween(s: State, c: nat, d: nat) {
    && c < |s.calls| && d < |s.calls| && c != d && ToSpawn(s.calls[c])
    && (ToSpawn(s.calls[d]) || InWait(s.calls[d]) || (s.pending > 0 && ToWait(s.calls[d])))
  }

  predicate Danger(s: State) {
    exists c, d :: 0 <= c < |s.calls| && 0 <= d < |s.calls| && DangerBetween(s, c, d)
  }

  lemma {:induction false} OverlapIsDanger(s: State, e: Event)
    requires Overlaps(s, e)
    ensures Danger(s)
  {
    var d :| 0 <= d < |s.calls| && InWait(s.calls[d]);
    assert DangerBetween(s, e.c, d);
  }

  lemma {:induction false} DangerIsOld(s: State, e: Event, c: nat, d: nat)
    requires Enabled(s, e) && !e.Call? && DangerBetween(Moving(s, e), c, d)
    ensures Danger(s)
  {
    if e.Spawn? && s.pending == 0 && d != e.c && !ToSpawn(s.calls[d]) && !InWait(s.calls[d]) {
      assert DangerBetween(s, c, e.c);
    } else {
      assert DangerBetween(s, c, d);
    }
  }

  /** Without new calls no danger arises. */
  lemma {:induction false} SafeStep(s: State, e: Event)
    requires Inv(s) && Quiet(s) && !Danger(s) && Enabled(s, e) && !e.Call?
    ensures Inv(Next(s, e)) && Quiet(Next(s, e)) && !Danger(Next(s, e)) && !Next(s, e).crashed
  {
    if Overlaps(s, e) { OverlapIsDanger(s, e); }
    NoPanic(s, e);
    QuietStep(s, e);
    StepKeeps(s, e);
    var t := Next(s, e);
    if Danger(t) {
      var c, d :| 0 <= c < |t.calls| && 0 <= d < |t.calls| && DangerBetween(t, c, d);
      DangerIsOld(s, e, c, d);
    }
  }

  lemma {:induction false} SafeRun(s: State, es: seq<Event>)
    requires Inv(s) && Quiet(s) && !Danger(s) && !s.crashed && Possible(s, es) && WithoutCalls(es)
    ensures !After(s, es).crashed
    decreases |es|
  {
    if es != [] {
      SafeStep(s, es[0]);
      SafeRun(Next(s, es[0]), es[1..]);
    }
  }

  /** The step that brings a call to its warm-up. */
  function TowardsSpawn(s: State, c: nat): (e: Event)
    requires c < |s.calls| && !s.crashed && ToSpawn(s.calls[c])
    ensures Enabled(s, e) && !e.Call? && !OfWarmUp(e)
  {
    match s.calls[c]
    case Entered => if s.pool != [] then Take(c) else Open(c)
    case Inline(_) => Boots(c)
    case Holding(_) => Spawn(c)
  }

  /** The step that brings a call to its wait. */
  function TowardsWait(s: State, d: nat): (e: Event)
    requires d < |s.calls| && !s.crashed && ToWait(s.calls[d])
    ensures Enabled(s, e) && !e.Call? && !OfWarmUp(e)
  {
    match s.calls[d]
    case Ready(_) => Dispatch(d)
    case Running(_) => Close(d)
    case Leaving => WaitStarts(d)
  }

  /** The next step towards the overlap: c comes to its warm-up and stays there, d to its
      wait, and the warm-ups to their end. */
  lemma {:induction false} DangerGoesOn(s: State, c: nat, d: nat) returns (e: Event)
    requires Inv(s) && Quiet(s) && !s.crashed && DangerBetween(s, c, d)
    ensures Enabled(s, e) && !e.Call?
    ensures Overlaps(s, e) || DangerBetween(Moving(s, e), c, d)
  {
    if !s.calls[c].Holding? {
      e := TowardsSpawn(s, c);
    } else if ToSpawn(s.calls[d]) {
      e := TowardsSpawn(s, d);
    } else if ToWait(s.calls[d]) {
      e := TowardsWait(s, d);
    } else if s.pending == 0 {
      e := Spawn(c);
    } else {
      assert s.calls[d].Blocked?;
      e := Unblocks(s);
    }
  }

  lemma {:induction false} DangerCrashes(s: State, c: nat, d: nat)
    requires Inv(s) && Quiet(s) && !s.crashed && DangerBetween(s, c, d)
    ensures CanCrash(s)
    decreases Remaining(s)
  {
    var e := DangerGoesOn(s, c, d);
    var more: seq<Event>;
    if Overlaps(s, e) {
      more := OverlapCanCrash(s, e);
    } else {
      NoPanic(s, e);
      QuietStep(s, e);
      StepKeeps(s, e);
      StepsRunOut(s, e);
      DangerCrashes(Next(s, e), c, d);
      more :| Possible(Next(s, e), more) && WithoutCalls(more) && After(Next(s, e), more).crashed;
      FirstEvent(s, e, more);
    }
    assert WithoutCalls([e] + more);
  }

  lemma {:induction false} UnquietCrashes(s: State)
    requires !Quiet(s) && !s.crashed
    ensures CanCrash(s)
  {
    var c :| 0 <= c < |s.calls| && s.calls[c].Woken?;
    OneEvent(s, Return(c));
    assert WithoutCalls([Return(c)]);
  }

  /** Without new calls a panic can still come if and only if a woken call finds the
      WaitGroup in use, or some call has its warm-up still to start while another has its
      own to start, is in its wait, or is on the way to it with warm-ups running. */
  lemma {:induction false} CrashExactly(s: State)
    requires Inv(s) && !s.crashed
    ensures CanCrash(s) <==> !Quiet(s) || Danger(s)
  {
    if !Quiet(s) {
      UnquietCrashes(s);
    } else if Danger(s) {
      var c, d :| 0 <= c < |s.calls| && 0 <= d < |s.calls| && DangerBetween(s, c, d);
      DangerCrashes(s, c, d);
    } else if CanCrash(s) {
      var es :| Possible(s, es) && WithoutCalls(es) && After(s, es).crashed;
      SafeRun(s, es);
    }
  }

  /** A run without overlap that cannot go on without new calls has returned from every
      call. */
  lemma {:induction false} QuietCallsReturn(es: seq<Event>)
    requires Possible(COLD, es) && !Overlapping(COLD, es)
    requires forall e :: Enabled(After(COLD, es), e) ==> e.Call?
    ensures AllReturned(After(COLD, es))
  {
    ColdIsOwned();
    RunKeeps(COLD, es);
    QuietRun(COLD, es);
    if !AllReturned(After(COLD, es)) {
      var e := NoDeadlock(After(COLD, es));
    }
  }

  // ---- one call at a time ----------------------------------------------------

  /** At most one call is under way. */
  predicate Alone(s: State) {
    forall c, d :: 0 <= c < |s.calls| && 0 <= d < |s.calls| && !Over(s.calls[c]) && !Over(s.calls[d]) ==> c == d
  }

  /** Every call of the run begins when the ones before it have returned. */
  predicate OneByOne(s: State, es: seq<Event>)
    requires Possible(s, es)
    decreases |es|
  {
    es == [] || ((es[0].Call? ==> AllReturned(s)) && OneByOne(Next(s, es[0]), es[1..]))
  }

  lemma {:induction false} AloneStep(s: State, e: Event)
    requires Alone(s) && Enabled(s, e) && (e.Call? ==> AllReturned(s))
    ensures Alone(Next(s, e)) && !Overlaps(s, e)
  {
    var t := Next(s, e);
    forall c | 0 <= c < |s.calls| && !Over(t.calls[c]) ensures !Over(s.calls[c]) {
    }
  }

  lemma {:induction false} OneByOneRun(s: State, es: seq<Event>)
    requires Alone(s) && Possible(s, es) && OneByOne(s, es)
    ensures !Overlapping(s, es)
    decreases |es|
  {
    if es != [] {
      AloneStep(s, es[0]);
      OneByOneRun(Next(s, es[0]), es[1..]);
    }
  }

  /** One call after the other never panics. */
  lemma {:induction false} OneByOneIsSafe(es: seq<Event>)
    requires Possible(COLD, es) && OneByOne(COLD, es)
    ensures !After(COLD, es).crashed
  {
    OneByOneRun(COLD, es);
    if After(COLD, es).crashed { CrashNeedsOverlap(es); }
  }

  // ---- a burst of two calls --------------------------------------------------

  /** The first call ends and waits; its warm-up releases it; the second call, which has
      opened a VM of its own, starts a warm-up; then the first one runs again. */
  const BURST: seq<Event> := [
    Call, Call, Open(0), Boots(0), Spawn(0), Dispatch(0), Close(0), WaitStarts(0),
    Open(1), Boots(1), WarmOpens(0), Park(0), Done(0), Wake(0), Spawn(1), Return(0)]

  lemma {:induction false} RunOn(s: State, es: seq<Event>, more: seq<Event>)
    requires Possible(s, es) && Possible(After(s, es), more)
    ensures Possible(s, es + more) && After(s, es + more) == After(After(s, es), more)
    decreases |es|
  {
    if es == [] {
      assert es + more == more;
    } else {
      RunOn(Next(s, es[0]), es[1..], more);
      FirstEvent(s, es[0], es[1..] + more);
      assert es + more == [es[0]] + (es[1..] + more);
    }
  }

  /** s is the state after these events. */
  ghost predicate Reaches(es: seq<Event>, s: State) {
    Possible(COLD, es) && After(COLD, es) == s
  }

  lemma {:induction false} Onward(es: seq<Event>, s: State, e: Event)
    requires Reaches(es, s) && Enabled(s, e)
    ensures Reaches(es + [e], Next(s, e))
  {
    OneEvent(s, e);
    RunOn(COLD, es, [e]);
  }

  lemma {:induction false} OnwardTwo(es: seq<Event>, s: State, e: Event, f: Event)
    requires Reaches(es, s) && Enabled(s, e) && Enabled(Next(s, e), f)
    ensures Reaches(es + [e, f], Next(Next(s, e), f))
  {
    Onward(es, s, e);
    Onward(es + [e], Next(s, e), f);
    assert es + [e] + [f] == es + [e, f];
  }

  /** The two calls are in; the first holds a VM. */
  lemma {:induction false} BurstBegins() returns (s: State)
    ensures Reaches([Call, Call] + [Open(0), Boots(0)], s)
    ensures s.calls == [Holding(0), Entered] && s.warmers == [] && s.pool == [] && s.pending == 0 && !s.crashed
  {
    assert Reaches([], COLD);
    OnwardTwo([], COLD, Call, Call);
    assert [] + [Call, Call] == [Call, Call];
    s := Next(Next(COLD, Call), Call);
    OnwardTwo([Call, Call], s, Open(0), Boots(0));
    s := Next(Next(s, Open(0)), Boots(0));
  }

  /** The first call has come to its wait. */
  lemma {:induction false} BurstWaits(es: seq<Event>, s: State) returns (t: State)
    requires Reaches(es, s)
    requires s.calls == [Holding(0), Entered] && s.warmers == [] && s.pool == [] && s.pending == 0 && !s.crashed
    ensures Reaches(es + [Spawn(0), Dispatch(0)] + [Close(0), WaitStarts(0)], t)
    ensures t.calls == [Blocked, Entered] && t.warmers == [Warmer(Booting, 0)]
    ensures t.pool == [] && t.pending == 1 && !t.crashed
  {
    OnwardTwo(es, s, Spawn(0), Dispatch(0));
    t := Next(Next(s, Spawn(0)), Dispatch(0));
    OnwardTwo(es + [Spawn(0), Dispatch(0)], t, Close(0), WaitStarts(0));
    t := Next(Next(t, Close(0)), WaitStarts(0));
  }

  /** The second call has opened a VM of its own, and the warm-up of the first is over. */
  lemma {:induction false} BurstWakes(es: seq<Event>, s: State) returns (t: State)
    requires Reaches(es, s)
    requires s.calls == [Blocked, Entered] && s.warmers == [Warmer(Booting, 0)]
    requires s.pool == [] && s.pending == 1 && !s.crashed
    ensures Reaches(es + [Open(1), Boots(1)] + [WarmOpens(0), Park(0)] + [Done(0), Wake(0)], t)
    ensures |t.calls| == 2 && t.calls[0].Woken? && t.calls[1].Holding? && t.pending == 0 && !t.crashed
  {
    OnwardTwo(es, s, Open(1), Boots(1));
    t := Next(Next(s, Open(1)), Boots(1));
    OnwardTwo(es + [Open(1), Boots(1)], t, WarmOpens(0), Park(0));
    t := Next(Next(t, WarmOpens(0)), Park(0));
    assert t.calls[0].Blocked? && t.warmers[0].pc.Parked?;
    OnwardTwo(es + [Open(1), Boots(1)] + [WarmOpens(0), Park(0)], t, Done(0), Wake(0));
    t := Next(Next(t, Done(0)), Wake(0));
  }

  lemma {:induction false} BurstCrashes()
    ensures Possible(COLD, BURST) && After(COLD, BURST).crashed
  {
    var s := BurstBegins();
    var es := [Call, Call] + [Open(0), Boots(0)];
    s := BurstWaits(es, s);
    es := es + [Spawn(0), Dispatch(0)] + [Close(0), WaitStarts(0)];
    s := BurstWakes(es, s);
    es := es + [Open(1), Boots(1)] + [WarmOpens(0), Park(0)] + [Done(0), Wake(0)];
    assert !SomeBlocked(s.calls);
    OnwardTwo(es, s, Spawn(1), Return(0));
    assert es + [Spawn(1), Return(0)] == BURST;
  }

  // ---- n calls under way -----------------------------------------------------

  function InProgress(pc: CallPc): nat {
    if Over(pc) then 0 else 1
  }

  /** How many calls are under way. */
  function UnderWay(s: State): nat {
    Sum(s.calls, InProgress)
  }

  /** At most n calls are under way at any time of the run. */
  predicate AtMost(n: nat, s: State, es: seq<Event>)
    requires Possible(s, es)
    decreases |es|
  {
    UnderWay(s) <= n && (es == [] || AtMost(n, Next(s, es[0]), es[1..]))
  }

  lemma {:induction false} NoneUnderWay(s: State)
    requires UnderWay(s) == 0
    ensures AllReturned(s)
  {
    SumZero(s.calls, InProgress);
    forall c | 0 <= c < |s.calls| ensures Over(s.calls[c]) {
      assert InProgress(s.calls[c]) == 0;
    }
  }

  lemma {:induction false} AtMostOne(s: State, es: seq<Event>)
    requires Possible(s, es) && AtMost(1, s, es)
    ensures OneByOne(s, es)
    decreases |es|
  {
    if es != [] {
      if es[0].Call? {
        SumAppend(s.calls, Entered, InProgress);
        assert UnderWay(Next(s, Call)) <= 1;
        NoneUnderWay(s);
      }
      AtMostOne(Next(s, es[0]), es[1..]);
    }
  }

  lemma {:induction false} AtMostMore(n: nat, m: nat, s: State, es: seq<Event>)
    requires n <= m && Possible(s, es) && AtMost(n, s, es)
    ensures AtMost(m, s, es)
    decreases |es|
  {
    if es != [] { AtMostMore(n, m, Next(s, es[0]), es[1..]); }
  }

  lemma {:induction false} NoMoreThanCalls(calls: seq<CallPc>)
    ensures Sum(calls, InProgress) <= |calls|
  {
    if calls != [] { NoMoreThanCalls(calls[..|calls| - 1]); }
  }

  lemma {:induction false} NoMoreUnderWay(s: State, es: seq<Event>)
    requires Possible(s, es) && WithoutCalls(es)
    ensures AtMost(|s.calls|, s, es)
    decreases |es|
  {
    NoMoreThanCalls(s.calls);
    if es != [] { NoMoreUnderWay(Next(s, es[0]), es[1..]); }
  }

  lemma {:induction false} OneMore(n: nat, s: State, es: seq<Event>)
    requires |s.calls| < n && !s.crashed && Possible(Next(s, Call), es) && AtMost(n, Next(s, Call), es)
    ensures Possible(s, [Call] + es) && AtMost(n, s, [Call] + es)
  {
    NoMoreThanCalls(s.calls);
    FirstEvent(s, Call, es);
    assert ([Call] + es)[0] == Call && ([Call] + es)[1..] == es;
  }

  predicate BeginsWithTwo(es: seq<Event>) {
    |es| >= 2 && es[0] == Call && es[1] == Call && WithoutCalls(es[2..])
  }

  lemma {:induction false} TwoUnderWay(es: seq<Event>)
    requires Possible(COLD, es) && BeginsWithTwo(es)
    ensures AtMost(2, COLD, es)
  {
    var first, rest := es[1..], es[2..];
    assert es == [Call] + first && first == [Call] + rest;
    var s := Next(COLD, Call);
    assert Possible(s, first) && first[1..] == rest;
    NoMoreUnderWay(Next(s, Call), rest);
    OneMore(2, s, rest);
    OneMore(2, COLD, first);
  }

  lemma BurstBeginsWithTwo()
    ensures BeginsWithTwo(BURST)
  {
  }

  ghost predicate NeverCrashes(n: nat) {
    forall es :: Possible(COLD, es) && AtMost(n, COLD, es) ==> !After(COLD, es).crashed
  }

  /** Callers that keep at most n calls under way are free of panics if and only if n is at
      most one. */
  lemma {:induction false} SafeExactly(n: nat)
    ensures NeverCrashes(n) <==> n <= 1
  {
    if n <= 1 {
      forall es | Possible(COLD, es) && AtMost(n, COLD, es) ensures !After(COLD, es).crashed {
        AtMostMore(n, 1, COLD, es);
        AtMostOne(COLD, es);
        OneByOneIsSafe(es);
      }
    } else {
      BurstCrashes();
      BurstBeginsWithTwo();
      TwoUnderWay(BURST);
      AtMostMore(2, n, COLD, BURST);
    }
  }
}
