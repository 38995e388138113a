/**
 The two test threads as the library's usage text prescribes them: thread A loops
 over run_a, start_race_a, its race body and end_race_a; thread B over run_b,
 start_race_b, its race body and end_race_b.  Every access to shared memory is a
 step of its own; an event names the thread that moves and the values that come
 from outside (whether time is up, a clock reading, a computed delay).
 */
module FuzzyProgram {
  import opened FuzzyBarrier

  /** Control points of thread A; the three waits are points of their own. */
  datatype LocA =
    | Head        // run_a: the time check, may request exit
    | Count       // run_a: the iteration check, may request exit
    | RunWait
    | RunExit     // run_a: reads exit after the wait
    | UpdBias     // pair_update: delay = delay_bias
    | UpdStart    // pair_update: reads b_start
    | UpdEnd      // pair_update: reads b_end
    | UpdSpins    // pair_update: reads spins
    | UpdDelay    // pair_update: adds the random delay
    | UpdZero     // pair_update: spins = 0
    | StartWait
    | ReadDelay   // start_race_a: reads delay
    | Body        // the code racing in A
    | EndWait
    | Join        // cleanup: waits for B to finish
    | Done

  /** Control points of thread B. */
  datatype LocB =
    | RunWaitB
    | RunExitB    // run_b: reads exit after the wait
    | StartWaitB
    | ReadDelayB  // start_race_b: reads delay
    | StampStartB // start_race_b: writes b_start
    | BodyB       // the code racing in B
    | StampEndB   // end_race_b: writes b_end
    | EndWaitB
    | DoneB

  /** `pair->delay`; history: the delays computed, and those read by A and by B. */
  datatype DelayCell = DelayCell(value: int, computed: seq<int>, usedA: seq<int>, usedB: seq<int>)

  /**
   `pair->b_start` and `pair->b_end`, with the registers of a running pair_update;
   history: the stamps B completed and those pair_update took.
   */
  datatype StampCell = StampCell(bStart: int, bEnd: int, readStart: int,
                                 completed: seq<(int, int)>, taken: seq<(int, int)>)

  /**
   `pair->spins`; history: `spun` counts the increments since the counter was last
   zeroed, `taken` holds the counts pair_update read and `log` the value of `spun`
   at each zeroing.
   */
  datatype SpinCell = SpinCell(value: int, spun: int, taken: seq<int>, log: seq<int>)

  /**
   Both threads and the shared fields.  History: `itersA` and `itersB` count finished
   iterations, `bodiesA` and `bodiesB` executed race bodies.
   */
  datatype State = State(
    a: Thread, la: LocA, b: Thread, lb: LocB, exit: bool, execLoop: int,
    itersA: nat, itersB: nat, bodiesA: nat, bodiesB: nat,
    delay: DelayCell, stamp: StampCell, spin: SpinCell)

  datatype Event = Event(who: Who, timeUp: bool, value: int)

  /** INT_MAX and the configured `exec_loops`. */
  datatype Config = Config(max: int, loops: nat)

  /** The state after tst_fzsync_pair_reset; the fields it leaves alone are arbitrary. */
  function Init(spins: int, bStart: int, bEnd: int): State {
    State(Fresh, Head, Fresh, RunWaitB, false, 0, 0, 0, 0, 0,
          DelayCell(0, [], [], []), StampCell(bStart, bEnd, 0, [], []), SpinCell(spins, spins, [], []))
  }

  /** Where a thread continues when a wait lets it go. */
  function AfterA(la: LocA): LocA {
    if la.RunWait? then RunExit else if la.StartWait? then ReadDelay else Head
  }

  function AfterB(lb: LocB): LocB {
    if lb.RunWaitB? then RunExitB else if lb.StartWaitB? then ReadDelayB else RunWaitB
  }

  /** The spin counter after a step that left it at `value`. */
  function Spin(cell: SpinCell, pc: Pc, value: int): SpinCell {
    cell.(value := value, spun := if pc.ResetSpinStore? || pc.FrontSpinStore? then cell.spun + 1 else cell.spun)
  }

  /** Thread A has moved to `a` inside its wait. */
  function MoveA(s: State, a: Thread, spin: SpinCell): State {
    s.(a := a, spin := spin,
       la := if a.pc.Out? then AfterA(s.la) else s.la,
       itersA := if a.pc.Out? && s.la.EndWait? then s.itersA + 1 else s.itersA)
  }

  function MoveB(s: State, b: Thread, spin: SpinCell): State {
    s.(b := b, spin := spin,
       lb := if b.pc.Out? then AfterB(s.lb) else s.lb,
       itersB := if b.pc.Out? && s.lb.EndWaitB? then s.itersB + 1 else s.itersB)
  }

  /** Thread A entering, or inside, one of its waits; end_race passes the spin counter. */
  function WaitA(c: Config, s: State): State {
    if s.a.pc.Out? then s.(a := Arrive(c.max, s.a, s.la.EndWait?))
    else
      var (a, spins) := Advance(c.max, s.a, s.b.cntr, s.exit, s.spin.value);
      MoveA(s, a, Spin(s.spin, s.a.pc, spins))
  }

  function WaitB(c: Config, s: State): State {
    if s.b.pc.Out? then s.(b := Arrive(c.max, s.b, s.lb.EndWaitB?))
    else
      var (b, spins) := Advance(c.max, s.b, s.a.cntr, s.exit, s.spin.value);
      MoveB(s, b, Spin(s.spin, s.b.pc, spins))
  }

  predicate WaitingA(la: LocA) {
    la.RunWait? || la.StartWait? || la.EndWait?
  }

  predicate WaitingB(lb: LocB) {
    lb.RunWaitB? || lb.StartWaitB? || lb.EndWaitB?
  }

  /** A step of thread A outside its waits. */
  function ClientA(c: Config, s: State, e: Event): State
    requires !WaitingA(s.la)
  {
    match s.la
    case Head => s.(la := Count, exit := s.exit || e.timeUp)
    case Count =>
      var loop := Bump(c.max, s.execLoop);
      s.(la := RunWait, execLoop := loop, exit := s.exit || loop > c.loops)
    case RunExit => s.(la := if s.exit then Join else UpdBias)
    case UpdBias => s.(la := UpdStart, delay := s.delay.(value := e.value))
    case UpdStart => s.(la := UpdEnd, stamp := s.stamp.(readStart := s.stamp.bStart))
    case UpdEnd => s.(la := UpdSpins, stamp := s.stamp.(taken := s.stamp.taken + [(s.stamp.readStart, s.stamp.bEnd)]))
    case UpdSpins => s.(la := UpdDelay, spin := s.spin.(taken := s.spin.taken + [s.spin.value]))
    case UpdDelay => s.(la := UpdZero, delay := s.delay.(value := e.value, computed := s.delay.computed + [e.value]))
    case UpdZero => s.(la := StartWait, spin := s.spin.(value := 0, spun := 0, log := s.spin.log + [s.spin.spun]))
    case ReadDelay => s.(la := Body, delay := s.delay.(usedA := s.delay.usedA + [s.delay.value]))
    case Body => s.(la := EndWait, bodiesA := s.bodiesA + 1)
    case Join => if s.lb.DoneB? then s.(la := Done) else s
    case Done => s
  }

  /** A step of thread B outside its waits. */
  function ClientB(s: State, e: Event): State
    requires !WaitingB(s.lb)
  {
    match s.lb
    case RunExitB => s.(lb := if s.exit then DoneB else StartWaitB)
    case ReadDelayB => s.(lb := StampStartB, delay := s.delay.(usedB := s.delay.usedB + [s.delay.value]))
    case StampStartB => s.(lb := BodyB, stamp := s.stamp.(bStart := e.value))
    case BodyB => s.(lb := StampEndB, bodiesB := s.bodiesB + 1)
    case StampEndB =>
      s.(lb := EndWaitB, stamp := s.stamp.(bEnd := e.value, completed := s.stamp.completed + [(s.stamp.bStart, e.value)]))
    case DoneB => s
  }

  function NextA(c: Config, s: State, e: Event): State {
    if WaitingA(s.la) then WaitA(c, s) else ClientA(c, s, e)
  }

  function NextB(c: Config, s: State, e: Event): State {
    if WaitingB(s.lb) then WaitB(c, s) else ClientB(s, e)
  }

  function Next(c: Config, s: State, e: Event): State {
    if e.who.A? then NextA(c, s, e) else NextB(c, s, e)
  }

  /** Every schedule, and every choice of outside values, is a sequence of events. */
  function RunPair(c: Config, s: State, events: seq<Event>): State {
    if events == [] then s
    else Next(c, RunPair(c, s, events[..|events| - 1]), events[|events| - 1])
  }

  // ----- The invariant -----

  /** Waits entered in the current iteration. */
  function OffA(la: LocA, pc: Pc): nat {
    match la
    case Head => 0
    case Count => 0
    case RunWait => if pc.Out? then 0 else 1
    case StartWait => if pc.Out? then 1 else 2
    case ReadDelay => 2
    case Body => 2
    case EndWait => if pc.Out? then 2 else 3
    case _ => 1
  }

  function OffB(lb: LocB, pc: Pc): nat {
    match lb
    case RunWaitB => if pc.Out? then 0 else 1
    case RunExitB => 1
    case StartWaitB => if pc.Out? then 1 else 2
    case EndWaitB => if pc.Out? then 2 else 3
    case DoneB => 1
    case _ => 2
  }

  predicate Inc(b: bool, n: nat, m: nat) {
    n == if b then m + 1 else m
  }

  /** The barrier invariant; once exit is set only each thread's own part is left. */
  ghost predicate InStep(c: Config, s: State)
    requires c.max >= 2
  {
    if s.exit then Local(c.max, s.a) && Local(c.max, s.b) else Synced(c.max, s.a, s.b)
  }

  /** What the barrier says about the number of waits entered. */
  ghost predicate Close(s: State) {
    && s.a.arrivals <= s.b.arrivals + 1 && s.b.arrivals <= s.a.arrivals + 1
    && (s.a.pc.Out? ==> s.a.arrivals <= s.b.arrivals)
    && (s.b.pc.Out? ==> s.b.arrivals <= s.a.arrivals)
  }

  ghost predicate Placed(c: Config, s: State) {
    && (!s.a.pc.Out? ==> s.la.RunWait? || s.la.StartWait? || s.la.EndWait?)
    && (!s.b.pc.Out? ==> s.lb.RunWaitB? || s.lb.StartWaitB? || s.lb.EndWaitB?)
    && (!s.a.pc.Out? ==> s.a.counting == s.la.EndWait?)
    && (!s.b.pc.Out? ==> s.b.counting == s.lb.EndWaitB?)
    && s.a.arrivals == 3 * s.itersA + OffA(s.la, s.a.pc)
    && s.b.arrivals == 3 * s.itersB + OffB(s.lb, s.b.pc)
    && Inc(s.la.EndWait?, s.bodiesA, s.itersA)
    && Inc(s.lb.StampEndB? || s.lb.EndWaitB?, s.bodiesB, s.itersB)
  }

  /** The loop counter; below INT_MAX its limit is kept, and it never exceeds INT_MAX. */
  ghost predicate Counted(c: Config, s: State) {
    && s.execLoop <= c.max
    && (c.loops < c.max ==>
          && s.execLoop == s.itersA + (if s.la.Head? || s.la.Count? then 0 else 1)
          && s.itersA <= c.loops
          && (!s.exit ==> s.execLoop <= c.loops))
  }

  /** Once exit is set, B is on its way to its next exit test. */
  ghost predicate Leaving(s: State) {
    if s.exit then
      && (s.la.Count? || s.la.RunWait? || s.la.RunExit? || s.la.Join? || s.la.Done?)
      && (|| (s.lb.EndWaitB? && !s.b.pc.Out? && s.itersB + 1 == s.itersA)
          || ((s.lb.RunWaitB? || s.lb.RunExitB? || s.lb.DoneB?) && s.itersB == s.itersA))
      && (s.la.Done? ==> s.lb.DoneB?)
    else
      Close(s) && !s.la.Join? && !s.la.Done? && !s.lb.DoneB?
  }

  ghost predicate PastDelay(la: LocA) {
    la.UpdZero? || la.StartWait? || la.ReadDelay? || la.Body? || la.EndWait?
  }

  ghost predicate DelayHandedOver(s: State) {
    var d := s.delay;
    && Inc(PastDelay(s.la), |d.computed|, s.itersA)
    && (|d.computed| > 0
        && !(s.la.UpdStart? || s.la.UpdEnd? || s.la.UpdSpins? || s.la.UpdDelay?)
        ==> d.value == d.computed[|d.computed| - 1])
    && Inc(s.la.Body? || s.la.EndWait?, |d.usedA|, s.itersA)
    && Inc(s.lb.StampStartB? || s.lb.BodyB? || s.lb.StampEndB? || s.lb.EndWaitB?, |d.usedB|, s.itersB)
    && d.usedA <= d.computed
    && d.usedB <= d.computed
  }

  /** The most recent completed stamps, or what was there before the first. */
  function Last(stamps: seq<(int, int)>, first: (int, int)): (int, int) {
    if stamps == [] then first else stamps[|stamps| - 1]
  }

  ghost predicate StampsHandedOver(s: State, first: (int, int)) {
    var t := s.stamp;
    && Inc(s.lb.EndWaitB?, |t.completed|, s.itersB)
    && (!(s.lb.BodyB? || s.lb.StampEndB?) ==> (t.bStart, t.bEnd) == Last(t.completed, first))
    && Inc(s.la.UpdSpins? || s.la.UpdDelay? || PastDelay(s.la), |t.taken|, s.itersA)
    && |t.taken| <= |t.completed| + 1
    && (forall i :: 0 <= i < |t.taken| ==> t.taken[i] == Last(t.completed[..i], first))
    && (s.la.UpdEnd? ==> t.readStart == t.bStart)
  }

  predicate Storing(x: Thread, spins: int) {
    && (x.pc.ResetSpinStore? ==> x.pc.seen == spins)
    && (x.pc.FrontSpinStore? ==> x.pc.seen == spins)
  }

  /** The number of spins read is exact if and only if it fits an int. */
  predicate Exact(max: int, value: int, spun: int) {
    value <= max && (spun <= max ==> value == spun)
  }

  ghost predicate SpinsExact(c: Config, s: State) {
    var n := s.spin;
    && Exact(c.max, n.value, n.spun)
    && (Spinning(s.a.pc) ==> s.a.counting) && (Spinning(s.b.pc) ==> s.b.counting)
    && Storing(s.a, n.value) && Storing(s.b, n.value)
    && Inc(s.la.StartWait? || s.la.ReadDelay? || s.la.Body? || s.la.EndWait?, |n.log|, s.itersA)
    && Inc(s.la.UpdDelay? || PastDelay(s.la), |n.taken|, s.itersA)
    && (forall i :: 0 <= i < |n.log| ==> i < |n.taken| && Exact(c.max, n.taken[i], n.log[i]))
    && (s.la.UpdDelay? || s.la.UpdZero? ==> Exact(c.max, n.taken[|n.taken| - 1], n.spun))
  }

  ghost predicate Inv(c: Config, s: State, first: (int, int))
    requires c.max >= 2
  {
    && InStep(c, s)
    && Placed(c, s)
    && Counted(c, s)
    && Leaving(s)
    && DelayHandedOver(s)
    && StampsHandedOver(s, first)
    && SpinsExact(c, s)
  }

  // ----- Preservation -----

  lemma InitInv(c: Config, spins: int, first: (int, int))
    requires c.max >= 2 && spins <= c.max
    ensures Inv(c, Init(spins, first.0, first.1), first)
  {
  }

  lemma SyncedClose(c: Config, s: State)
    requires c.max >= 2 && Synced(c.max, s.a, s.b)
    ensures Close(s)
  {
  }

  lemma InStepA(c: Config, s: State, e: Event)
    requires c.max >= 2 && InStep(c, s)
    ensures InStep(c, NextA(c, s, e))
  {
    if WaitingA(s.la) {
      if s.a.pc.Out? {
        ArriveLocal(c.max, s.a, s.la.EndWait?);
        if !s.exit { ArriveSynced(c.max, s.a, s.b, s.la.EndWait?); }
      } else {
        AdvanceLocal(c.max, s.a, s.b.cntr, s.exit, s.spin.value);
        if !s.exit { AdvanceSynced(c.max, s.a, s.b, s.spin.value); }
      }
    }
  }

  lemma InStepB(c: Config, s: State, e: Event)
    requires c.max >= 2 && InStep(c, s)
    ensures InStep(c, NextB(c, s, e))
  {
    if !s.exit { SyncedSymmetric(c.max, s.a, s.b); }
    if WaitingB(s.lb) {
      if s.b.pc.Out? {
        ArriveLocal(c.max, s.b, s.lb.EndWaitB?);
        if !s.exit { ArriveSynced(c.max, s.b, s.a, s.lb.EndWaitB?); }
      } else {
        AdvanceLocal(c.max, s.b, s.a.cntr, s.exit, s.spin.value);
        if !s.exit { AdvanceSynced(c.max, s.b, s.a, s.spin.value); }
      }
    }
  }

  /** A step inside a wait moves the thread's control point and little else. */
  lemma AdvanceFrame(max: int, x: Thread, ours: int, exit: bool, spins: int)
    requires x.pc != Out
    ensures var x' := Advance(max, x, ours, exit, spins).0;
      x'.arrivals == x.arrivals && x'.counting == x.counting
  {
  }

  lemma PlacedMoveA(c: Config, s: State, a: Thread, spin: SpinCell)
    requires Placed(c, s) && Leaving(s) && !s.a.pc.Out?
    requires a.arrivals == s.a.arrivals && a.counting == s.a.counting
    ensures Placed(c, MoveA(s, a, spin))
  {
  }

  lemma PlacedMoveB(c: Config, s: State, b: Thread, spin: SpinCell)
    requires Placed(c, s) && !s.b.pc.Out?
    requires b.arrivals == s.b.arrivals && b.counting == s.b.counting
    ensures Placed(c, MoveB(s, b, spin))
  {
  }

  lemma PlacedClientA(c: Config, s: State, e: Event)
    requires Placed(c, s) && Leaving(s) && !WaitingA(s.la)
    ensures Placed(c, ClientA(c, s, e))
  {
  }

  lemma PlacedA(c: Config, s: State, e: Event)
    requires Placed(c, s) && Leaving(s)
    ensures Placed(c, NextA(c, s, e))
  {
    if !WaitingA(s.la) {
      PlacedClientA(c, s, e);
    } else if !s.a.pc.Out? {
      AdvanceFrame(c.max, s.a, s.b.cntr, s.exit, s.spin.value);
      var (a, spins) := Advance(c.max, s.a, s.b.cntr, s.exit, s.spin.value);
      PlacedMoveA(c, s, a, Spin(s.spin, s.a.pc, spins));
    }
  }

  lemma PlacedClientB(c: Config, s: State, e: Event)
    requires Placed(c, s) && !WaitingB(s.lb)
    ensures Placed(c, ClientB(s, e))
  {
  }

  lemma PlacedB(c: Config, s: State, e: Event)
    requires Placed(c, s)
    ensures Placed(c, NextB(c, s, e))
  {
    if !WaitingB(s.lb) {
      PlacedClientB(c, s, e);
    } else if !s.b.pc.Out? {
      AdvanceFrame(c.max, s.b, s.a.cntr, s.exit, s.spin.value);
      var (b, spins) := Advance(c.max, s.b, s.a.cntr, s.exit, s.spin.value);
      PlacedMoveB(c, s, b, Spin(s.spin, s.b.pc, spins));
    }
  }

  lemma CountedNext(c: Config, s: State, e: Event)
    requires c.max >= 2 && c.loops <= c.max && Placed(c, s) && Counted(c, s) && Leaving(s)
    ensures Counted(c, Next(c, s, e))
  {
  }

  lemma LeavingA(c: Config, s: State, e: Event)
    requires Placed(c, s) && Leaving(s)
    requires !NextA(c, s, e).exit ==> Close(NextA(c, s, e))
    ensures Leaving(NextA(c, s, e))
  {
  }

  lemma LeavingB(c: Config, s: State, e: Event)
    requires Placed(c, s) && Leaving(s)
    requires !NextB(c, s, e).exit ==> Close(NextB(c, s, e))
    ensures Leaving(NextB(c, s, e))
  {
  }

  lemma DelayMoveA(c: Config, s: State, a: Thread, spin: SpinCell)
    requires DelayHandedOver(s) && WaitingA(s.la)
    ensures DelayHandedOver(MoveA(s, a, spin))
  {
  }

  lemma DelayMoveB(c: Config, s: State, b: Thread, spin: SpinCell)
    requires DelayHandedOver(s) && WaitingB(s.lb)
    ensures DelayHandedOver(MoveB(s, b, spin))
  {
  }

  lemma DelayReadA(c: Config, s: State, e: Event)
    requires DelayHandedOver(s) && s.la.ReadDelay?
    ensures DelayHandedOver(ClientA(c, s, e))
  {
    assert s.delay.usedA + [s.delay.value] == s.delay.computed;
  }

  lemma DelayComputed(c: Config, s: State, e: Event)
    requires DelayHandedOver(s) && s.la.UpdDelay?
    ensures DelayHandedOver(ClientA(c, s, e))
  {
    assert s.delay.computed <= s.delay.computed + [e.value];
  }

  lemma DelayClientA(c: Config, s: State, e: Event)
    requires DelayHandedOver(s) && !WaitingA(s.la)
    ensures DelayHandedOver(ClientA(c, s, e))
  {
    if s.la.ReadDelay? {
      DelayReadA(c, s, e);
    } else if s.la.UpdDelay? {
      DelayComputed(c, s, e);
    }
  }

  lemma DelayClientB(c: Config, s: State, e: Event)
    requires Placed(c, s) && Leaving(s) && DelayHandedOver(s) && !WaitingB(s.lb)
    ensures DelayHandedOver(ClientB(s, e))
  {
  }

  lemma DelayA(c: Config, s: State, e: Event)
    requires DelayHandedOver(s)
    ensures DelayHandedOver(NextA(c, s, e))
  {
    if !WaitingA(s.la) {
      DelayClientA(c, s, e);
    } else if !s.a.pc.Out? {
      var (a, spins) := Advance(c.max, s.a, s.b.cntr, s.exit, s.spin.value);
      DelayMoveA(c, s, a, Spin(s.spin, s.a.pc, spins));
    }
  }

  lemma DelayB(c: Config, s: State, e: Event)
    requires Placed(c, s) && Leaving(s) && DelayHandedOver(s)
    ensures DelayHandedOver(NextB(c, s, e))
  {
    if !WaitingB(s.lb) {
      DelayClientB(c, s, e);
    } else if !s.b.pc.Out? {
      var (b, spins) := Advance(c.max, s.b, s.a.cntr, s.exit, s.spin.value);
      DelayMoveB(c, s, b, Spin(s.spin, s.b.pc, spins));
    }
  }

  /** When A reads the stamps, B has completed the previous iteration's and no more. */
  lemma StampsReady(c: Config, s: State)
    requires Placed(c, s) && Leaving(s) && (s.la.UpdStart? || s.la.UpdEnd?)
    ensures s.itersB == s.itersA && (s.lb.RunWaitB? || s.lb.RunExitB? || s.lb.StartWaitB?)
  {
  }

  lemma StampsClientA(c: Config, s: State, e: Event, first: (int, int))
    requires Placed(c, s) && Leaving(s) && StampsHandedOver(s, first) && !WaitingA(s.la)
    ensures StampsHandedOver(ClientA(c, s, e), first)
  {
    if s.la.UpdStart? || s.la.UpdEnd? {
      StampsReady(c, s);
      assert s.stamp.completed[..s.itersA] == s.stamp.completed;
    }
  }

  lemma StampsClientB(c: Config, s: State, e: Event, first: (int, int))
    requires Placed(c, s) && Leaving(s) && StampsHandedOver(s, first) && !WaitingB(s.lb)
    ensures StampsHandedOver(ClientB(s, e), first)
  {
  }

  lemma StampsMoveA(s: State, a: Thread, spin: SpinCell, first: (int, int))
    requires StampsHandedOver(s, first) && WaitingA(s.la)
    ensures StampsHandedOver(MoveA(s, a, spin), first)
  {
  }

  lemma StampsMoveB(s: State, b: Thread, spin: SpinCell, first: (int, int))
    requires StampsHandedOver(s, first) && WaitingB(s.lb)
    ensures StampsHandedOver(MoveB(s, b, spin), first)
  {
  }

  lemma StampsA(c: Config, s: State, e: Event, first: (int, int))
    requires Placed(c, s) && Leaving(s) && StampsHandedOver(s, first)
    ensures StampsHandedOver(NextA(c, s, e), first)
  {
    if !WaitingA(s.la) {
      StampsClientA(c, s, e, first);
    } else if !s.a.pc.Out? {
      var (a, spins) := Advance(c.max, s.a, s.b.cntr, s.exit, s.spin.value);
      StampsMoveA(s, a, Spin(s.spin, s.a.pc, spins), first);
    }
  }

  lemma StampsB(c: Config, s: State, e: Event, first: (int, int))
    requires Placed(c, s) && Leaving(s) && StampsHandedOver(s, first)
    ensures StampsHandedOver(NextB(c, s, e), first)
  {
    if !WaitingB(s.lb) {
      StampsClientB(c, s, e, first);
    } else if !s.b.pc.Out? {
      var (b, spins) := Advance(c.max, s.b, s.a.cntr, s.exit, s.spin.value);
      StampsMoveB(s, b, Spin(s.spin, s.b.pc, spins), first);
    }
  }

  /** The two threads are never both inside the increment of `spins`. */
  lemma OneSpins(c: Config, s: State)
    requires c.max >= 2 && InStep(c, s) && Placed(c, s) && Leaving(s)
    ensures !(Spinning(s.a.pc) && Spinning(s.b.pc))
  {
  }

  /** While A updates its statistics, B is in no wait that counts spins. */
  lemma NoSpinsInUpdate(c: Config, s: State)
    requires Placed(c, s) && Leaving(s)
    requires s.la.UpdSpins? || s.la.UpdDelay? || s.la.UpdZero?
    ensures !s.b.pc.Out? ==> !s.b.counting
  {
  }

  lemma SpinsClientA(c: Config, s: State, e: Event)
    requires c.max >= 2 && Placed(c, s) && Leaving(s) && SpinsExact(c, s) && !WaitingA(s.la)
    ensures SpinsExact(c, ClientA(c, s, e))
  {
    if s.la.UpdSpins? || s.la.UpdDelay? || s.la.UpdZero? {
      NoSpinsInUpdate(c, s);
    }
  }

  lemma SpinsClientB(c: Config, s: State, e: Event)
    requires SpinsExact(c, s) && !WaitingB(s.lb)
    ensures SpinsExact(c, ClientB(s, e))
  {
  }

  /** One step inside a wait keeps the count exact if the peer is not storing. */
  lemma SpinStep(c: Config, cell: SpinCell, x: Thread, ours: int, exit: bool)
    requires c.max >= 2 && !x.pc.Out? && Exact(c.max, cell.value, cell.spun) && Storing(x, cell.value)
    requires Spinning(x.pc) ==> x.counting
    ensures var (x', spins) := Advance(c.max, x, ours, exit, cell.value);
      var cell' := Spin(cell, x.pc, spins);
      && Exact(c.max, cell'.value, cell'.spun) && Storing(x', cell'.value) && (Spinning(x'.pc) ==> x'.counting)
      && (cell' != cell ==> Spinning(x.pc) && x.counting)
  {
  }

  lemma SpinsMoveA(c: Config, s: State, a: Thread, spin: SpinCell)
    requires c.max >= 2 && SpinsExact(c, s) && WaitingA(s.la)
    requires Exact(c.max, spin.value, spin.spun) && spin.taken == s.spin.taken && spin.log == s.spin.log
    requires Storing(a, spin.value) && Storing(s.b, spin.value) && (Spinning(a.pc) ==> a.counting)
    ensures SpinsExact(c, MoveA(s, a, spin))
  {
  }

  lemma SpinsMoveB(c: Config, s: State, b: Thread, spin: SpinCell)
    requires c.max >= 2 && SpinsExact(c, s) && WaitingB(s.lb)
    requires Exact(c.max, spin.value, spin.spun) && spin.taken == s.spin.taken && spin.log == s.spin.log
    requires s.la.UpdDelay? || s.la.UpdZero? ==> spin == s.spin
    requires Storing(b, spin.value) && Storing(s.a, spin.value) && (Spinning(b.pc) ==> b.counting)
    ensures SpinsExact(c, MoveB(s, b, spin))
  {
  }

  lemma SpinsA(c: Config, s: State, e: Event)
    requires c.max >= 2 && Placed(c, s) && Leaving(s) && SpinsExact(c, s)
    requires !(Spinning(s.a.pc) && Spinning(s.b.pc))
    ensures SpinsExact(c, NextA(c, s, e))
  {
    if !WaitingA(s.la) {
      SpinsClientA(c, s, e);
    } else if !s.a.pc.Out? {
      SpinStep(c, s.spin, s.a, s.b.cntr, s.exit);
      var (a, spins) := Advance(c.max, s.a, s.b.cntr, s.exit, s.spin.value);
      SpinsMoveA(c, s, a, Spin(s.spin, s.a.pc, spins));
    }
  }

  lemma SpinsB(c: Config, s: State, e: Event)
    requires c.max >= 2 && Placed(c, s) && Leaving(s) && SpinsExact(c, s)
    requires !(Spinning(s.a.pc) && Spinning(s.b.pc))
    ensures SpinsExact(c, NextB(c, s, e))
  {
    if !WaitingB(s.lb) {
      SpinsClientB(c, s, e);
    } else if !s.b.pc.Out? {
      SpinStep(c, s.spin, s.b, s.a.cntr, s.exit);
      if s.la.UpdDelay? || s.la.UpdZero? { NoSpinsInUpdate(c, s); }
      var (b, spins) := Advance(c.max, s.b, s.a.cntr, s.exit, s.spin.value);
      SpinsMoveB(c, s, b, Spin(s.spin, s.b.pc, spins));
    }
  }

  lemma NextInv(c: Config, s: State, e: Event, first: (int, int))
    requires c.max >= 2 && c.loops <= c.max && Inv(c, s, first)
    ensures Inv(c, Next(c, s, e), first)
  {
    var s' := Next(c, s, e);
    OneSpins(c, s);
    CountedNext(c, s, e);
    if e.who.A? {
      InStepA(c, s, e);
      PlacedA(c, s, e);
      if !s'.exit { SyncedClose(c, s'); }
      LeavingA(c, s, e);
      DelayA(c, s, e);
      StampsA(c, s, e, first);
      SpinsA(c, s, e);
    } else {
      InStepB(c, s, e);
      PlacedB(c, s, e);
      if !s'.exit { SyncedClose(c, s'); }
      LeavingB(c, s, e);
      DelayB(c, s, e);
      StampsB(c, s, e, first);
      SpinsB(c, s, e);
    }
  }

  lemma {:induction false} RunInv(c: Config, spins: int, first: (int, int), events: seq<Event>)
    requires c.max >= 2 && c.loops <= c.max && spins <= c.max
    ensures Inv(c, RunPair(c, Init(spins, first.0, first.1), events), first)
  {
    if events == [] {
      InitInv(c, spins, first);
    } else {
      RunInv(c, spins, first, events[..|events| - 1]);
      NextInv(c, RunPair(c, Init(spins, first.0, first.1), events[..|events| - 1]), events[|events| - 1], first);
    }
  }

  // ----- What holds in every run -----

  /**
   The counters never leave [0, INT_MAX], even while shutting down; while exit is
   unset no thread is past a wait its peer has not entered, and two race bodies
   that overlap belong to the same iteration.
   */
  lemma RaceInStep(c: Config, spins: int, first: (int, int), events: seq<Event>)
    requires c.max >= 2 && c.loops <= c.max && spins <= c.max
    ensures var s := RunPair(c, Init(spins, first.0, first.1), events);
      && 0 <= s.a.cntr <= c.max && 0 <= s.b.cntr <= c.max
      && (!s.exit && s.a.pc.Out? ==> s.a.arrivals <= s.b.arrivals)
      && (!s.exit && s.b.pc.Out? ==> s.b.arrivals <= s.a.arrivals)
      && (s.la.Body? && s.lb.BodyB? ==> s.bodiesA == s.bodiesB)
  {
    RunInv(c, spins, first, events);
    var s := RunPair(c, Init(spins, first.0, first.1), events);
    assert Local(c.max, s.a) && Local(c.max, s.b);
  }

  /**
   Exit is requested by run_a alone.  Then the two threads never differ by more than
   one race body, neither exceeds an exec_loops below INT_MAX, and from the moment exit is set both
   have executed the body equally often and will not execute it again.
   */
  lemma CleanShutdown(c: Config, spins: int, first: (int, int), events: seq<Event>)
    requires c.max >= 2 && c.loops <= c.max && spins <= c.max
    ensures var s := RunPair(c, Init(spins, first.0, first.1), events);
      && (c.loops < c.max ==> s.bodiesA <= c.loops && s.bodiesB <= c.loops)
      && -1 <= s.bodiesA - s.bodiesB <= 1
      && (s.exit ==> s.bodiesA == s.bodiesB && !s.la.Body? && !s.lb.BodyB?)
      && (s.lb.DoneB? ==> s.exit)
      && (s.la.Done? ==> s.exit && s.lb.DoneB?)
  {
    RunInv(c, spins, first, events);
  }

  /** Each number of spins taken is the one counted, if and only if that fits an int. */
  ghost predicate SpinsTaken(max: int, n: SpinCell) {
    && |n.log| <= |n.taken| <= |n.log| + 1
    && forall i :: 0 <= i < |n.log| ==> (n.taken[i] == n.log[i] <==> n.log[i] <= max)
  }

  lemma SpinsRight(c: Config, s: State)
    requires Placed(c, s) && SpinsExact(c, s)
    ensures SpinsTaken(c.max, s.spin) && s.bodiesA <= |s.spin.log| <= s.bodiesA + 1
  {
    var n := s.spin;
    forall i | 0 <= i < |n.log| ensures n.taken[i] == n.log[i] <==> n.log[i] <= c.max {
      assert Exact(c.max, n.taken[i], n.log[i]);
    }
  }

  /**
   The i-th delay either thread uses is the i-th one A computed; the i-th update
   takes the time stamps B completed in iteration i - 1 (before the first one, what
   the fields held at the start) and the number of spins since the previous update,
   exact if and only if that fits an int; the two threads are never both inside the increment of `spins`.
   */
  lemma OrderedHandOff(c: Config, spins: int, first: (int, int), events: seq<Event>)
    requires c.max >= 2 && c.loops <= c.max && spins <= c.max
    ensures var s := RunPair(c, Init(spins, first.0, first.1), events);
      && s.delay.usedA <= s.delay.computed && s.delay.usedB <= s.delay.computed
      && s.bodiesA <= |s.delay.usedA| <= s.bodiesA + 1
      && s.bodiesB <= |s.delay.usedB| <= s.bodiesB + 1
      && (s.stamp.taken != [] ==> s.stamp.taken[0] == first)
      && (forall i :: 0 < i < |s.stamp.taken| ==>
            i <= |s.stamp.completed| && s.stamp.taken[i] == s.stamp.completed[i - 1])
      && s.bodiesA <= |s.stamp.taken| <= s.bodiesA + 1
      && SpinsTaken(c.max, s.spin) && s.bodiesA <= |s.spin.log| <= s.bodiesA + 1
      && !(Spinning(s.a.pc) && Spinning(s.b.pc))
  {
    RunInv(c, spins, first, events);
    var s := RunPair(c, Init(spins, first.0, first.1), events);
    OneSpins(c, s);
    SpinsRight(c, s);
    forall i | 0 < i < |s.stamp.taken|
      ensures i <= |s.stamp.completed| && s.stamp.taken[i] == s.stamp.completed[i - 1]
    {
      assert s.stamp.completed[..i][i - 1] == s.stamp.completed[i - 1];
    }
  }
}
