/** client/lua.go: the one-shot Lua VM pool under concurrent calls, as the interleavings of
    the calls and of the warm-ups they start in the background.  The WaitGroup they share
    is that of Go's package sync, with its two panics on misuse. */
module VMPool {

  /** Capacity of the channel that parks warm VMs. */
  const LUA_POOL_SIZE := 1

  /** Where a call of callViaState or callRaw stands. */
  datatype CallPc =
    | Entered            // before acquire's select
    | Inline(vm: nat)    // the pool was empty: warming a VM itself
    | Holding(vm: nat)   // has its VM, about to start the next warm-up
    | Ready(vm: nat)     // acquire has returned
    | Running(vm: nat)   // the dispatch runs on the VM
    | Leaving            // VM closed, about to wait for the warm-ups
    | Blocked            // in Wait, one of the WaitGroup's waiters
    | Woken              // released, about to look at the WaitGroup again
    | Returned

  /** Where a background warm-up stands. */
  datatype WarmPc =
    | Booting            // no VM yet
    | Booted(vm: nat)    // about to select on the pool
    | Parked             // nothing left but WaitGroup.Done
    | Waking             // its Done has reached zero, the waiters are still to be released
    | Finished

  datatype Warmer = Warmer(pc: WarmPc, owner: nat)

  datatype State = State(
    pool: seq<nat>,        // the channel
    alive: set<nat>,       // VMs opened and not closed
    made: nat,             // VMs opened so far: their numbers are 0 .. opened - 1
    calls: seq<CallPc>,
    warmers: seq<Warmer>,
    pending: nat,          // the WaitGroup's counter
    log: seq<nat>,         // the VM of each dispatch, in order
    crashed: bool)         // the WaitGroup has panicked

  const COLD := State([], {}, 0, [], [], 0, [], false)

  datatype Event =
    | Call                 // a new call
    | Take(c: nat)         // select: a parked VM
    | Open(c: nat)         // select: default, open a VM
    | BootFails(c: nat)
    | Boots(c: nat)
    | Spawn(c: nat)        // startWarming
    | Dispatch(c: nat)
    | Close(c: nat)        // release: close the VM
    | WaitStarts(c: nat)   // Wait: return at once at zero, or block
    | Return(c: nat)       // Wait: the woken call looks at the WaitGroup again
    | WarmOpens(w: nat)
    | WarmFails(w: nat)
    | Park(w: nat)         // select: the pool has room
    | Drop(w: nat)         // select: default, close the VM
    | Done(w: nat)         // the warm-up's goroutine ends: the counter goes down
    | Wake(w: nat)         // Done, at zero: the waiters are released

  predicate SomeBlocked(calls: seq<CallPc>) {
    exists c :: 0 <= c < |calls| && calls[c].Blocked?
  }

  /** Add panics when it raises the counter from zero while there are waiters. */
  predicate AddPanics(s: State) {
    s.pending == 0 && SomeBlocked(s.calls)
  }

  /** A woken Wait panics when the WaitGroup is in use again: a counter or waiters. */
  predicate WaitPanics(s: State) {
    s.pending > 0 || SomeBlocked(s.calls)
  }

  predicate Enabled(s: State, e: Event) {
    !s.crashed &&
    match e
    case Call => true
    case Take(c) => c < |s.calls| && s.calls[c].Entered? && s.pool != []
    case Open(c) => c < |s.calls| && s.calls[c].Entered? && s.pool == []
    case BootFails(c) => c < |s.calls| && s.calls[c].Inline?
    case Boots(c) => c < |s.calls| && s.calls[c].Inline?
    case Spawn(c) => c < |s.calls| && s.calls[c].Holding?
    case Dispatch(c) => c < |s.calls| && s.calls[c].Ready?
    case Close(c) => c < |s.calls| && s.calls[c].Running?
    case WaitStarts(c) => c < |s.calls| && s.calls[c].Leaving?
    case Return(c) => c < |s.calls| && s.calls[c].Woken?
    case WarmOpens(w) => w < |s.warmers| && s.warmers[w].pc.Booting?
    case WarmFails(w) => w < |s.warmers| && (s.warmers[w].pc.Booting? || s.warmers[w].pc.Booted?)
    case Park(w) => w < |s.warmers| && s.warmers[w].pc.Booted? && |s.pool| < LUA_POOL_SIZE
    case Drop(w) => w < |s.warmers| && s.warmers[w].pc.Booted? && |s.pool| >= LUA_POOL_SIZE
    case Done(w) => w < |s.warmers| && s.warmers[w].pc.Parked? && s.pending > 0
    case Wake(w) => w < |s.warmers| && s.warmers[w].pc.Waking?
  }

  function Moved(s: State, c: nat, pc: CallPc): State
    requires c < |s.calls|
  {
    s.(calls := s.calls[c := pc])
  }

  function Warmed(s: State, w: nat, pc: WarmPc): State
    requires w < |s.warmers|
  {
    s.(warmers := s.warmers[w := s.warmers[w].(pc := pc)])
  }

  /** All waiters released. */
  function Released(calls: seq<CallPc>): (r: seq<CallPc>)
    ensures |r| == |calls|
    ensures forall c :: 0 <= c < |calls| ==> r[c] == if calls[c].Blocked? then Woken else calls[c]
  {
    seq(|calls|, c requires 0 <= c < |calls| => if calls[c].Blocked? then Woken else calls[c])
  }

  function Next(s: State, e: Event): State
    requires Enabled(s, e)
  {
    if e.Spawn? && AddPanics(s) then s.(crashed := true)
    else if e.Return? && WaitPanics(s) then s.(crashed := true)
    else Moving(s, e)
  }

  /** A step without a panic. */
  function Moving(s: State, e: Event): State
    requires Enabled(s, e)
  {
    match e
    case Call => s.(calls := s.calls + [Entered])
    case Take(c) => Moved(s, c, Holding(s.pool[0])).(pool := s.pool[1..])
    case Open(c) => Moved(s, c, Inline(s.made)).(alive := s.alive + {s.made}, made := s.made + 1)
    case BootFails(c) => Moved(s, c, Returned).(alive := s.alive - {s.calls[c].vm})
    case Boots(c) => Moved(s, c, Holding(s.calls[c].vm))
    case Spawn(c) =>
      Moved(s, c, Ready(s.calls[c].vm)).(warmers := s.warmers + [Warmer(Booting, c)], pending := s.pending + 1)
    case Dispatch(c) => Moved(s, c, Running(s.calls[c].vm)).(log := s.log + [s.calls[c].vm])
    case Close(c) => Moved(s, c, Leaving).(alive := s.alive - {s.calls[c].vm})
    case WaitStarts(c) => Moved(s, c, if s.pending == 0 then Returned else Blocked)
    case Return(c) => Moved(s, c, Returned)
    case WarmOpens(w) => Warmed(s, w, Booted(s.made)).(alive := s.alive + {s.made}, made := s.made + 1)
    case WarmFails(w) =>
      Warmed(s, w, Parked).(alive := s.alive - if s.warmers[w].pc.Booted? then {s.warmers[w].pc.vm} else {})
    case Park(w) => Warmed(s, w, Parked).(pool := s.pool + [s.warmers[w].pc.vm])
    case Drop(w) => Warmed(s, w, Parked).(alive := s.alive - {s.warmers[w].pc.vm})
    case Done(w) =>
      Warmed(s, w, if s.pending == 1 && SomeBlocked(s.calls) then Waking else Finished).(pending := s.pending - 1)
    case Wake(w) => Warmed(s, w, Finished).(calls := Released(s.calls))
  }

  // ---- sums over calls and warm-ups ----------------------------------------

  function Sum<T>(xs: seq<T>, f: T -> nat): nat {
    if xs == [] then 0 else Sum(xs[..|xs| - 1], f) + f(xs[|xs| - 1])
  }

  lemma {:induction false} SumUpdate<T>(xs: seq<T>, i: nat, x: T, f: T -> nat)
    requires i < |xs|
    ensures Sum(xs[i := x], f) + f(xs[i]) == Sum(xs, f) + f(x)
    ensures f(xs[i]) <= Sum(xs, f)
  {
    var n := |xs| - 1;
    if i < n {
      assert xs[i := x][..n] == xs[..n][i := x];
      SumUpdate(xs[..n], i, x, f);
    } else {
      assert xs[i := x][..n] == xs[..n];
    }
  }

  lemma {:induction false} SumAppend<T>(xs: seq<T>, x: T, f: T -> nat)
    ensures Sum(xs + [x], f) == Sum(xs, f) + f(x)
  {
    assert (xs + [x])[..|xs|] == xs;
  }

  lemma {:induction false} SumHead<T>(xs: seq<T>, f: T -> nat)
    requires xs != []
    ensures Sum(xs, f) == f(xs[0]) + Sum(xs[1..], f)
  {
    var n := |xs| - 1;
    if n > 0 {
      SumHead(xs[..n], f);
      assert xs[..n][1..] == xs[1..][..n - 1];
    }
  }

  lemma {:induction false} SumZero<T>(xs: seq<T>, f: T -> nat)
    ensures Sum(xs, f) == 0 <==> forall i :: 0 <= i < |xs| ==> f(xs[i]) == 0
  {
    if xs != [] {
      SumZero(xs[..|xs| - 1], f);
      var n := |xs| - 1;
      if Sum(xs, f) == 0 {
        forall i | 0 <= i < |xs| ensures f(xs[i]) == 0 {
          if i < n { assert xs[i] == xs[..n][i]; }
        }
      }
    }
  }

  lemma {:induction false} SumSame<T>(xs: seq<T>, ys: seq<T>, f: T -> nat)
    requires |xs| == |ys| && forall i :: 0 <= i < |xs| ==> f(ys[i]) == f(xs[i])
    ensures Sum(ys, f) == Sum(xs, f)
  {
    if xs != [] {
      SumSame(xs[..|xs| - 1], ys[..|xs| - 1], f);
    }
  }

  lemma {:induction false} SumLess<T>(xs: seq<T>, ys: seq<T>, f: T -> nat)
    requires |xs| == |ys| && forall i :: 0 <= i < |xs| ==> f(ys[i]) <= f(xs[i])
    ensures Sum(ys, f) <= Sum(xs, f)
  {
    if xs != [] {
      SumLess(xs[..|xs| - 1], ys[..|xs| - 1], f);
    }
  }

  // ---- who holds which VM --------------------------------------------------

  function Is(v: nat): nat -> nat {
    x => if x == v then 1 else 0
  }

  /** Calls that have v and have not dispatched on it yet. */
  function Idle(v: nat): CallPc -> nat {
    (pc: CallPc) => if (pc.Inline? || pc.Holding? || pc.Ready?) && pc.vm == v then 1 else 0
  }

  /** Calls whose dispatch runs on v. */
  function Busy(v: nat): CallPc -> nat {
    (pc: CallPc) => if pc.Running? && pc.vm == v then 1 else 0
  }

  function Warm(v: nat): Warmer -> nat {
    (w: Warmer) => if w.pc.Booted? && w.pc.vm == v then 1 else 0
  }

  /** How many have v while no dispatch has run on it. */
  function Unused(s: State, v: nat): nat {
    Sum(s.pool, Is(v)) + Sum(s.calls, Idle(v)) + Sum(s.warmers, Warm(v))
  }

  /** How many dispatches run on v. */
  function InUse(s: State, v: nat): nat {
    Sum(s.calls, Busy(v))
  }

  /** An open VM has exactly one holder, a closed one none; a VM that has served a dispatch
      is not held for another. */
  ghost predicate OwnedAt(s: State, v: nat) {
    && Unused(s, v) + InUse(s, v) == (if v in s.alive then 1 else 0)
    && (v in s.alive || v in s.log ==> v < s.made)
    && (v in s.log ==> Unused(s, v) == 0)
  }

  ghost predicate Owned(s: State) {
    forall v: nat :: OwnedAt(s, v)
  }

  predicate Distinct(xs: seq<nat>) {
    forall i, j :: 0 <= i < j < |xs| ==> xs[i] != xs[j]
  }

  // ---- the WaitGroup -------------------------------------------------------

  /** The warm-up has called Done. */
  predicate HasDone(w: Warmer) {
    w.pc.Waking? || w.pc.Finished?
  }

  function Undone(w: Warmer): nat {
    if HasDone(w) then 0 else 1
  }

  function Unfinished(ws: seq<Warmer>): nat {
    Sum(ws, Undone)
  }

  lemma {:induction false} NoneUnfinished(ws: seq<Warmer>)
    ensures Unfinished(ws) == 0 <==> forall i :: 0 <= i < |ws| ==> HasDone(ws[i])
  {
    SumZero(ws, Undone);
    forall i | 0 <= i < |ws| ensures Undone(ws[i]) == 0 <==> HasDone(ws[i]) {
    }
  }

  predicate AfterSpawn(pc: CallPc) {
    pc.Ready? || pc.Running? || pc.Leaving? || pc.Blocked? || pc.Woken?
  }

  /** The counter counts, and a running warm-up belongs to a call that has not returned. */
  ghost predicate Counted(s: State) {
    && s.pending == Unfinished(s.warmers)
    && forall w :: 0 <= w < |s.warmers| && !HasDone(s.warmers[w]) ==>
         s.warmers[w].owner < |s.calls| && AfterSpawn(s.calls[s.warmers[w].owner])
  }

  /** At zero with waiters there is a warm-up about to release them, and only then. */
  ghost predicate Attended(s: State) {
    && (s.pending == 0 && SomeBlocked(s.calls) ==> exists w :: 0 <= w < |s.warmers| && s.warmers[w].pc.Waking?)
    && (forall w :: 0 <= w < |s.warmers| && s.warmers[w].pc.Waking? ==> s.pending == 0 && SomeBlocked(s.calls))
    && (forall v, w :: 0 <= v < w < |s.warmers| ==> !(s.warmers[v].pc.Waking? && s.warmers[w].pc.Waking?))
  }

  ghost predicate Inv(s: State) {
    Owned(s) && Distinct(s.log) && |s.pool| <= LUA_POOL_SIZE && Counted(s) && Attended(s)
  }

  // ---- every step keeps the invariant --------------------------------------

  predicate OfWarmUp(e: Event) {
    e.WarmOpens? || e.WarmFails? || e.Park? || e.Drop? || e.Done? || e.Wake?
  }

  lemma {:induction false} CallMoves(s: State, c: nat, pc: CallPc, v: nat)
    requires c < |s.calls|
    ensures var t := s.calls[c := pc];
      && Sum(t, Idle(v)) + Idle(v)(s.calls[c]) == Sum(s.calls, Idle(v)) + Idle(v)(pc)
      && Sum(t, Busy(v)) + Busy(v)(s.calls[c]) == Sum(s.calls, Busy(v)) + Busy(v)(pc)
    ensures Idle(v)(s.calls[c]) <= Sum(s.calls, Idle(v)) && Busy(v)(s.calls[c]) <= Sum(s.calls, Busy(v))
  {
    SumUpdate(s.calls, c, pc, Idle(v));
    SumUpdate(s.calls, c, pc, Busy(v));
  }

  /** A call moves on and the pool and the log stay. */
  lemma {:induction false} CallStep(s: State, e: Event, v: nat)
    requires Owned(s) && Enabled(s, e) && !OfWarmUp(e) && !e.Call? && !e.Spawn? && !e.Take? && !e.Dispatch?
    ensures OwnedAt(Moving(s, e), v)
  {
    assert OwnedAt(s, v);
    CallMoves(s, e.c, Moving(s, e).calls[e.c], v);
  }

  lemma {:induction false} TakeStep(s: State, c: nat, v: nat)
    requires Owned(s) && Enabled(s, Take(c))
    ensures OwnedAt(Moving(s, Take(c)), v)
  {
    assert OwnedAt(s, v);
    CallMoves(s, c, Holding(s.pool[0]), v);
    SumHead(s.pool, Is(v));
  }

  lemma {:induction false} DispatchStep(s: State, c: nat, v: nat)
    requires Owned(s) && Enabled(s, Dispatch(c))
    ensures OwnedAt(Moving(s, Dispatch(c)), v)
  {
    assert OwnedAt(s, v);
    CallMoves(s, c, Running(s.calls[c].vm), v);
    assert v in s.log + [s.calls[c].vm] <==> v in s.log || v == s.calls[c].vm;
  }

  lemma {:induction false} EnterStep(s: State, v: nat)
    requires OwnedAt(s, v) && !s.crashed
    ensures OwnedAt(Moving(s, Call), v)
  {
    SumAppend(s.calls, Entered, Idle(v));
    SumAppend(s.calls, Entered, Busy(v));
  }

  lemma {:induction false} SpawnStep(s: State, c: nat, v: nat)
    requires OwnedAt(s, v) && Enabled(s, Spawn(c))
    ensures OwnedAt(Moving(s, Spawn(c)), v)
  {
    CallMoves(s, c, Ready(s.calls[c].vm), v);
    SumAppend(s.warmers, Warmer(Booting, c), Warm(v));
  }

  lemma {:induction false} WarmMoves(s: State, w: nat, pc: WarmPc, v: nat)
    requires w < |s.warmers|
    ensures var was := s.warmers[w];
      Sum(Warmed(s, w, pc).warmers, Warm(v)) + Warm(v)(was) == Sum(s.warmers, Warm(v)) + Warm(v)(was.(pc := pc))
    ensures Warm(v)(s.warmers[w]) <= Sum(s.warmers, Warm(v))
  {
    SumUpdate(s.warmers, w, s.warmers[w].(pc := pc), Warm(v));
  }

  lemma {:induction false} OpenedStep(s: State, w: nat, v: nat)
    requires Owned(s) && Enabled(s, WarmOpens(w))
    ensures OwnedAt(Moving(s, WarmOpens(w)), v)
  {
    assert OwnedAt(s, v);
    WarmMoves(s, w, Booted(s.made), v);
  }

  lemma {:induction false} ParkStep(s: State, w: nat, v: nat)
    requires Owned(s) && Enabled(s, Park(w))
    ensures OwnedAt(Moving(s, Park(w)), v)
  {
    assert OwnedAt(s, v);
    WarmMoves(s, w, Parked, v);
    SumAppend(s.pool, s.warmers[w].pc.vm, Is(v));
  }

  lemma {:induction false} DroppedStep(s: State, e: Event, v: nat)
    requires Owned(s) && Enabled(s, e) && (e.WarmFails? || e.Drop?)
    ensures OwnedAt(Moving(s, e), v)
  {
    assert OwnedAt(s, v);
    WarmMoves(s, e.w, Parked, v);
  }

  lemma {:induction false} DoneStep(s: State, w: nat, v: nat)
    requires Owned(s) && Enabled(s, Done(w))
    ensures OwnedAt(Moving(s, Done(w)), v)
  {
    assert OwnedAt(s, v);
    WarmMoves(s, w, Moving(s, Done(w)).warmers[w].pc, v);
  }

  lemma {:induction false} WakeStep(s: State, w: nat, v: nat)
    requires Owned(s) && Enabled(s, Wake(w))
    ensures OwnedAt(Moving(s, Wake(w)), v)
  {
    assert OwnedAt(s, v);
    WarmMoves(s, w, Finished, v);
    SumSame(s.calls, Released(s.calls), Idle(v));
    SumSame(s.calls, Released(s.calls), Busy(v));
  }

  lemma {:induction false} WarmStep(s: State, e: Event, v: nat)
    requires Owned(s) && Enabled(s, e) && OfWarmUp(e)
    ensures OwnedAt(Moving(s, e), v)
  {
    if e.WarmOpens? {
      OpenedStep(s, e.w, v);
    } else if e.Park? {
      ParkStep(s, e.w, v);
    } else if e.Done? {
      DoneStep(s, e.w, v);
    } else if e.Wake? {
      WakeStep(s, e.w, v);
    } else {
      DroppedStep(s, e, v);
    }
  }

  /** The VM that a call dispatches on has served no dispatch. */
  lemma {:induction false} ReadyIsFresh(s: State, c: nat)
    requires Owned(s) && c < |s.calls| && (s.calls[c].Inline? || s.calls[c].Holding? || s.calls[c].Ready?)
    ensures s.calls[c].vm !in s.log
  {
    assert OwnedAt(s, s.calls[c].vm);
    SumUpdate(s.calls, c, s.calls[c], Idle(s.calls[c].vm));
  }

  lemma {:induction false} OwnedStep(s: State, e: Event)
    requires Owned(s) && Enabled(s, e)
    ensures Owned(Moving(s, e))
  {
    forall v: nat ensures OwnedAt(Moving(s, e), v) {
      assert OwnedAt(s, v);
      if e.Call? {
        EnterStep(s, v);
      } else if e.Spawn? {
        SpawnStep(s, e.c, v);
      } else if OfWarmUp(e) {
        WarmStep(s, e, v);
      } else if e.Take? {
        TakeStep(s, e.c, v);
      } else if e.Dispatch? {
        DispatchStep(s, e.c, v);
      } else {
        CallStep(s, e, v);
      }
    }
  }

  lemma {:induction false} CountWarm(s: State, e: Event)
    requires Counted(s) && Enabled(s, e) && OfWarmUp(e)
    ensures Counted(Moving(s, e))
  {
    SumUpdate(s.warmers, e.w, Moving(s, e).warmers[e.w], Undone);
  }

  /** A call moves on without leaving the calls whose warm-ups may run. */
  lemma {:induction false} CountMoved(s: State, t: State, c: nat, pc: CallPc)
    requires Counted(s) && c < |s.calls| && (AfterSpawn(s.calls[c]) ==> AfterSpawn(pc))
    requires t.calls == s.calls[c := pc] && t.warmers == s.warmers && t.pending == s.pending
    ensures Counted(t)
  {
  }

  lemma {:induction false} CountSpawn(s: State, c: nat)
    requires Counted(s) && Enabled(s, Spawn(c))
    ensures Counted(Moving(s, Spawn(c)))
  {
    SumAppend(s.warmers, Warmer(Booting, c), Undone);
  }

  /** A call that returns leaves no warm-up running. */
  lemma {:induction false} CountReturned(s: State, c: nat)
    requires Counted(s) && c < |s.calls| && s.pending == 0
    ensures Counted(Moved(s, c, Returned))
  {
    NoneUnfinished(s.warmers);
  }

  lemma {:induction false} CountCall(s: State)
    requires Counted(s)
    ensures Counted(s.(calls := s.calls + [Entered]))
  {
  }

  lemma {:induction false} CountStep(s: State, e: Event)
    requires Counted(s) && Enabled(s, e) && (e.Return? ==> !WaitPanics(s))
    ensures Counted(Moving(s, e))
  {
    if OfWarmUp(e) {
      CountWarm(s, e);
    } else if e.Call? {
      CountCall(s);
    } else if e.Spawn? {
      CountSpawn(s, e.c);
    } else if e.Return? || (e.WaitStarts? && s.pending == 0) {
      CountReturned(s, e.c);
    } else {
      CountMoved(s, Moving(s, e), e.c, Moving(s, e).calls[e.c]);
    }
  }

  // The waiters: who blocks, who releases.

  lemma BlockedMoved(calls: seq<CallPc>, c: nat, pc: CallPc)
    requires c < |calls| && !calls[c].Blocked?
    ensures SomeBlocked(calls[c := pc]) <==> SomeBlocked(calls) || pc.Blocked?
  {
    var t := calls[c := pc];
    if SomeBlocked(calls) {
      var d :| 0 <= d < |calls| && calls[d].Blocked?;
      assert t[d].Blocked?;
    }
    if pc.Blocked? { assert t[c].Blocked?; }
  }

  lemma {:induction false} AttendedCall(s: State, e: Event)
    requires Attended(s) && Enabled(s, e) && !OfWarmUp(e) && !e.Call? && !e.Spawn?
    ensures Attended(Moving(s, e))
  {
    BlockedMoved(s.calls, e.c, Moving(s, e).calls[e.c]);
  }

  lemma {:induction false} AttendedGrow(s: State, e: Event)
    requires Attended(s) && Enabled(s, e) && (e.Call? || e.Spawn?) && (e.Spawn? ==> !AddPanics(s))
    ensures Attended(Moving(s, e))
  {
    var t := Moving(s, e);
    if e.Spawn? {
      BlockedMoved(s.calls, e.c, t.calls[e.c]);
    } else {
      assert SomeBlocked(t.calls) <==> SomeBlocked(s.calls) by {
        if SomeBlocked(s.calls) {
          var d :| 0 <= d < |s.calls| && s.calls[d].Blocked?;
          assert t.calls[d].Blocked?;
        }
      }
    }
  }

  lemma {:induction false} AttendedWarm(s: State, e: Event)
    requires Attended(s) && Enabled(s, e) && OfWarmUp(e) && !e.Wake?
    ensures Attended(Moving(s, e))
  {
    var t := Moving(s, e);
    assert t.calls == s.calls;
    if e.Done? {
      assert forall w :: 0 <= w < |s.warmers| ==> !s.warmers[w].pc.Waking?;
      if t.pending == 0 && SomeBlocked(t.calls) { assert t.warmers[e.w].pc.Waking?; }
    } else if t.pending == 0 && SomeBlocked(t.calls) {
      var w :| 0 <= w < |s.warmers| && s.warmers[w].pc.Waking?;
      assert t.warmers[w].pc.Waking?;
    }
  }

  lemma {:induction false} AttendedWake(s: State, w: nat)
    requires Attended(s) && Enabled(s, Wake(w))
    ensures Attended(Moving(s, Wake(w)))
  {
    assert !SomeBlocked(Released(s.calls));
  }

  lemma {:induction false} AttendedStep(s: State, e: Event)
    requires Attended(s) && Enabled(s, e) && (e.Spawn? ==> !AddPanics(s))
    ensures Attended(Moving(s, e))
  {
    if e.Wake? {
      AttendedWake(s, e.w);
    } else if OfWarmUp(e) {
      AttendedWarm(s, e);
    } else if e.Call? || e.Spawn? {
      AttendedGrow(s, e);
    } else {
      AttendedCall(s, e);
    }
  }

  lemma {:induction false} LogStep(s: State, e: Event)
    requires Owned(s) && Distinct(s.log) && |s.pool| <= LUA_POOL_SIZE && Enabled(s, e)
    ensures Distinct(Moving(s, e).log) && |Moving(s, e).pool| <= LUA_POOL_SIZE
  {
    if e.Dispatch? { ReadyIsFresh(s, e.c); }
  }

  lemma {:induction false} StepKeeps(s: State, e: Event)
    requires Inv(s) && Enabled(s, e)
    ensures Inv(Next(s, e))
  {
    if Next(s, e).crashed {
      SameButCrashed(s);
    } else {
      CountStep(s, e);
      AttendedStep(s, e);
      OwnedStep(s, e);
      LogStep(s, e);
    }
  }

  lemma {:induction false} SameButCrashed(s: State)
    requires Inv(s)
    ensures Inv(s.(crashed := true))
  {
    forall v: nat ensures OwnedAt(s.(crashed := true), v) {
      assert OwnedAt(s, v);
    }
  }

  // ---- every interleaving ----------------------------------------------------

  /** The events can happen one after the other. */
  predicate Possible(s: State, es: seq<Event>)
    decreases |es|
  {
    es == [] || (Enabled(s, es[0]) && Possible(Next(s, es[0]), es[1..]))
  }

  function After(s: State, es: seq<Event>): State
    requires Possible(s, es)
    decreases |es|
  {
    if es == [] then s else After(Next(s, es[0]), es[1..])
  }

  lemma {:induction false} RunKeeps(s: State, es: seq<Event>)
    requires Inv(s) && Possible(s, es)
    ensures Inv(After(s, es))
    decreases |es|
  {
    if es != [] {
      StepKeeps(s, es[0]);
      RunKeeps(Next(s, es[0]), es[1..]);
    }
  }

  /** A call that is over, with a result or with the error of its own warm-up. */
  predicate Over(pc: CallPc) {
    pc.Returned?
  }

  predicate AllReturned(s: State) {
    forall c :: 0 <= c < |s.calls| ==> Over(s.calls[c])
  }

  lemma {:induction false} ColdIsOwned()
    ensures Inv(COLD)
  {
    forall v: nat ensures OwnedAt(COLD, v) {
    }
  }

  /** In every interleaving no VM serves two dispatches, and none that has served one is
      parked or handed out again: it is in its dispatch or closed. */
  lemma {:induction false} NoVMServesTwice(es: seq<Event>)
    requires Possible(COLD, es)
    ensures var s := After(COLD, es);
      && Distinct(s.log)
      && (forall v :: v in s.log ==> v !in s.pool && (v in s.alive ==> InUse(s, v) == 1))
      && forall c :: 0 <= c < |s.calls| && (s.calls[c].Holding? || s.calls[c].Ready?) ==> s.calls[c].vm !in s.log
  {
    ColdIsOwned();
    RunKeeps(COLD, es);
    var s := After(COLD, es);
    forall v | v in s.log ensures v !in s.pool && (v in s.alive ==> InUse(s, v) == 1) {
      assert OwnedAt(s, v);
      SumZero(s.pool, Is(v));
      assert forall i :: 0 <= i < |s.pool| ==> Is(v)(s.pool[i]) == 0;
    }
    forall c | 0 <= c < |s.calls| && (s.calls[c].Holding? || s.calls[c].Ready?) ensures s.calls[c].vm !in s.log {
      ReadyIsFresh(s, c);
    }
  }

  /** When all calls have returned no warm-up is running, and the VMs still open are the
      parked ones, at most one. */
  lemma {:induction false} NothingLeftBehind(es: seq<Event>)
    requires Possible(COLD, es) && AllReturned(After(COLD, es))
    ensures var s := After(COLD, es);
      && s.pending == 0
      && (forall w :: 0 <= w < |s.warmers| ==> s.warmers[w].pc.Finished?)
      && (forall v :: v in s.alive <==> v in s.pool)
      && |s.alive| <= 1
  {
    ColdIsOwned();
    RunKeeps(COLD, es);
    var s := After(COLD, es);
    NoneUnfinished(s.warmers);
    assert !SomeBlocked(s.calls);
    forall v: nat ensures v in s.alive <==> v in s.pool {
      OnlyParked(s, v);
    }
    FewAlive(s.alive, s.pool);
  }

  lemma {:induction false} OnlyParked(s: State, v: nat)
    requires OwnedAt(s, v) && AllReturned(s) && forall w :: 0 <= w < |s.warmers| ==> s.warmers[w].pc.Finished?
    ensures v in s.alive <==> v in s.pool
  {
    SumZero(s.pool, Is(v));
    SumZero(s.calls, Idle(v));
    SumZero(s.calls, Busy(v));
    SumZero(s.warmers, Warm(v));
    assert v !in s.pool ==> forall i :: 0 <= i < |s.pool| ==> Is(v)(s.pool[i]) == 0;
    if v in s.pool {
      var i :| 0 <= i < |s.pool| && s.pool[i] == v;
      assert Is(v)(s.pool[i]) == 1;
    }
  }

  lemma {:induction false} FewAlive(alive: set<nat>, pool: seq<nat>)
    requires forall v :: v in alive ==> v in pool
    ensures |alive| <= |pool|
  {
    if pool != [] {
      var rest := alive - {pool[0]};
      forall v | v in rest ensures v in pool[1..] {
        var i :| 0 <= i < |pool| && pool[i] == v;
        assert pool[1..][i - 1] == v;
      }
      FewAlive(rest, pool[1..]);
      assert alive <= rest + {pool[0]};
      SetGrowth(alive, rest, pool[0]);
    } else {
      assert forall v :: v !in alive;
      assert alive == {};
    }
  }

  lemma SetGrowth(a: set<nat>, b: set<nat>, x: nat)
    requires b == a - {x}
    ensures |a| <= |b| + 1
  {
    if x in a {
      assert a == b + {x};
    } else {
      forall y | y in a ensures y in b {}
      assert a == b;
    }
  }

  // ---- every call returns --------------------------------------------------

  function CallRank(pc: CallPc): nat {
    match pc
    case Entered => 12
    case Inline(_) => 11
    case Holding(_) => 10
    case Ready(_) => 5
    case Running(_) => 4
    case Leaving => 3
    case Blocked => 2
    case Woken => 1
    case Returned => 0
  }

  function WarmRank(w: Warmer): nat {
    match w.pc
    case Booting => 4
    case Booted(_) => 3
    case Parked => 2
    case Waking => 1
    case Finished => 0
  }

  /** How many steps the calls and warm-ups under way can still take. */
  function Remaining(s: State): nat {
    Sum(s.calls, CallRank) + Sum(s.warmers, WarmRank) + if s.crashed then 0 else 1
  }

  lemma {:induction false} WarmUpsRunOut(s: State, e: Event)
    requires Enabled(s, e) && OfWarmUp(e)
    ensures Remaining(Next(s, e)) < Remaining(s)
  {
    SumUpdate(s.warmers, e.w, Next(s, e).warmers[e.w], WarmRank);
    SumLess(s.calls, Released(s.calls), CallRank);
  }

  lemma {:induction false} SpawnRunsOut(s: State, c: nat)
    requires Enabled(s, Spawn(c))
    ensures Remaining(Moving(s, Spawn(c))) < Remaining(s)
  {
    SumUpdate(s.calls, c, Ready(s.calls[c].vm), CallRank);
    SumAppend(s.warmers, Warmer(Booting, c), WarmRank);
  }

  lemma {:induction false} CallsRunOut(s: State, e: Event)
    requires Enabled(s, e) && !OfWarmUp(e) && !e.Call? && !e.Spawn?
    ensures Remaining(Moving(s, e)) < Remaining(s)
  {
    SumUpdate(s.calls, e.c, Moving(s, e).calls[e.c], CallRank);
  }

  lemma {:induction false} StepsRunOut(s: State, e: Event)
    requires Enabled(s, e) && !e.Call?
    ensures Remaining(Next(s, e)) < Remaining(s)
  {
    if OfWarmUp(e) {
      WarmUpsRunOut(s, e);
    } else if !Next(s, e).crashed {
      if e.Spawn? { SpawnRunsOut(s, e.c); } else { CallsRunOut(s, e); }
    }
  }

  /** A state in which some call is not over lets some call or warm-up go on, unless the
      WaitGroup has panicked. */
  lemma {:induction false} NoDeadlock(s: State) returns (e: Event)
    requires Counted(s) && Attended(s) && !s.crashed && !AllReturned(s)
    ensures Enabled(s, e) && !e.Call?
  {
    var c :| 0 <= c < |s.calls| && !Over(s.calls[c]);
    match s.calls[c] {
      case Entered => e := if s.pool == [] then Open(c) else Take(c);
      case Inline(_) => e := Boots(c);
      case Holding(_) => e := Spawn(c);
      case Ready(_) => e := Dispatch(c);
      case Running(_) => e := Close(c);
      case Leaving => e := WaitStarts(c);
      case Woken => e := Return(c);
      case _ => e := Unblocks(s);
    }
  }

  /** Waiters wait for something that goes on: a warm-up, or their release. */
  lemma {:induction false} Unblocks(s: State) returns (e: Event)
    requires Counted(s) && Attended(s) && !s.crashed && SomeBlocked(s.calls)
    ensures Enabled(s, e) && OfWarmUp(e)
  {
    if s.pending == 0 {
      var w :| 0 <= w < |s.warmers| && s.warmers[w].pc.Waking?;
      e := Wake(w);
    } else {
      NoneUnfinished(s.warmers);
      var w :| 0 <= w < |s.warmers| && !HasDone(s.warmers[w]);
      var pc := s.warmers[w].pc;
      e := if pc.Booting? then WarmOpens(w)
           else if pc.Booted? then (if |s.pool| < LUA_POOL_SIZE then Park(w) else Drop(w))
           else Done(w);
    }
  }

  predicate WithoutCalls(es: seq<Event>) {
    forall i :: 0 <= i < |es| ==> !es[i].Call?
  }

  /** Without new calls every run is finite, and one that cannot go on has returned from
      every call, or the WaitGroup has panicked. */
  lemma {:induction false} CallsReturn(s: State, es: seq<Event>)
    requires Inv(s) && Possible(s, es) && WithoutCalls(es)
    ensures |es| <= Remaining(s)
    ensures (forall e :: Enabled(After(s, es), e) ==> e.Call?) ==>
      AllReturned(After(s, es)) || After(s, es).crashed
    decreases |es|
  {
    if es == [] {
      if !AllReturned(s) && !s.crashed {
        var e := NoDeadlock(s);
      }
    } else {
      StepKeeps(s, es[0]);
      StepsRunOut(s, es[0]);
      CallsReturn(Next(s, es[0]), es[1..]);
    }
  }
}
