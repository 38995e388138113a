/**
 A run in which the shared spin counter overflows: thread B stays away from its last wait
 of an iteration while thread A spins there, and the next update reads a wrong number.
 */
module FuzzyOverflow {
  import opened FuzzyBarrier
  import opened FuzzyProgram
  import opened FuzzyLiveness

  const STEP_A := Event(A, false, 0)
  const STEP_B := Event(B, false, 0)

  /** Some schedule leads from `s` to `t` before time is up. */
  ghost predicate Reaches(c: Config, s: State, t: State) {
    exists events :: NoTimeUp(events) && RunPair(c, s, events) == t
  }

  lemma ReachesNext(c: Config, s: State, t: State, e: Event)
    requires Reaches(c, s, t) && !e.timeUp
    ensures Reaches(c, s, Next(c, t, e))
  {
    var events :| NoTimeUp(events) && RunPair(c, s, events) == t;
    var more := events + [e];
    assert more[..|more| - 1] == events;
    assert NoTimeUp(more);
    assert RunPair(c, s, more) == Next(c, t, e);
  }

  lemma {:induction false} RunConcat(c: Config, s: State, x: seq<Event>, y: seq<Event>)
    ensures RunPair(c, s, x + y) == RunPair(c, RunPair(c, s, x), y)
    decreases |y|
  {
    if y == [] {
      assert x + y == x;
    } else {
      assert (x + y)[..|x + y| - 1] == x + y[..|y| - 1];
      RunConcat(c, s, x, y[..|y| - 1]);
    }
  }

  /** A waits for a peer that is already there. */
  lemma PassA(c: Config, s0: State, s: State) returns (t: State)
    requires Reaches(c, s0, s) && WaitingA(s.la) && !s.la.EndWait? && s.a.pc.Out?
    requires s.a.cntr + 1 < c.max && s.b.cntr > s.a.cntr
    ensures Reaches(c, s0, t)
    ensures t == s.(a := Thread(Out, s.a.cntr + 1, s.a.arrivals + 1, false), la := AfterA(s.la))
  {
    var s1 := Next(c, s, STEP_A);
    ReachesNext(c, s0, s, STEP_A);
    assert s1 == s.(a := Thread(FrontOur, s.a.cntr + 1, s.a.arrivals + 1, false));
    var s2 := Next(c, s1, STEP_A);
    ReachesNext(c, s0, s1, STEP_A);
    assert s2 == s1.(a := s1.a.(pc := FrontOther(s.b.cntr)));
    t := Next(c, s2, STEP_A);
    ReachesNext(c, s0, s2, STEP_A);
  }

  /** A's steps from the head of its loop to its second wait, B being in its first. */
  lemma ToStart(c: Config, s0: State, s: State) returns (t: State)
    requires Reaches(c, s0, s) && s.la.Head? && s.a == Fresh && !s.exit && s.execLoop == 0 && s.itersA == 0
    requires c.max >= 4 && c.loops >= 1 && s.b.cntr == 1
    ensures Reaches(c, s0, t) && t.la.UpdBias? && t.a == Thread(Out, 1, 1, false) && !t.exit && t.itersA == 0
    ensures t.b == s.b && t.lb == s.lb
  {
    var s1 := Next(c, s, STEP_A);
    ReachesNext(c, s0, s, STEP_A);
    var s2 := Next(c, s1, STEP_A);
    ReachesNext(c, s0, s1, STEP_A);
    var s3 := PassA(c, s0, s2);
    t := Next(c, s3, STEP_A);
    ReachesNext(c, s0, s3, STEP_A);
  }

  predicate Updating(la: LocA) {
    la.UpdBias? || la.UpdStart? || la.UpdEnd? || la.UpdSpins? || la.UpdDelay? || la.UpdZero?
  }

  /** The next step of an update. */
  function After(la: LocA): LocA {
    match la
    case UpdBias => UpdStart
    case UpdStart => UpdEnd
    case UpdEnd => UpdSpins
    case UpdSpins => UpdDelay
    case UpdDelay => UpdZero
    case _ => StartWait
  }

  lemma UpdateStep(c: Config, s0: State, s: State) returns (t: State)
    requires Reaches(c, s0, s) && Updating(s.la)
    ensures Reaches(c, s0, t) && t.la == After(s.la)
    ensures t.a == s.a && t.b == s.b && t.lb == s.lb && t.exit == s.exit && t.itersA == s.itersA
  {
    t := Next(c, s, STEP_A);
    ReachesNext(c, s0, s, STEP_A);
  }

  lemma Update(c: Config, s0: State, s: State) returns (t: State)
    requires Reaches(c, s0, s) && s.la.UpdBias?
    ensures Reaches(c, s0, t) && t.la.StartWait?
    ensures t.a == s.a && t.b == s.b && t.lb == s.lb && t.exit == s.exit && t.itersA == s.itersA
  {
    t := UpdateStep(c, s0, s);
    t := UpdateStep(c, s0, t);
    t := UpdateStep(c, s0, t);
    t := UpdateStep(c, s0, t);
    t := UpdateStep(c, s0, t);
    t := UpdateStep(c, s0, t);
  }

  /** B leaves its first wait and enters its second. */
  lemma Follow(c: Config, s0: State, s: State) returns (t: State)
    requires Reaches(c, s0, s) && s.lb.RunWaitB? && s.b == Thread(FrontOur, 1, 1, false) && s.a.cntr == 1
    requires c.max >= 4 && !s.exit
    ensures Reaches(c, s0, t) && t.b.cntr == 2 && t.la == s.la && t.a == s.a && !t.exit && t.itersA == s.itersA
  {
    var s1 := Next(c, s, STEP_B);
    ReachesNext(c, s0, s, STEP_B);
    assert s1.b == Thread(FrontOther(1), 1, 1, false);
    var s2 := Next(c, s1, STEP_B);
    ReachesNext(c, s0, s1, STEP_B);
    var s3 := Next(c, s2, STEP_B);
    ReachesNext(c, s0, s2, STEP_B);
    t := Next(c, s3, STEP_B);
    ReachesNext(c, s0, s3, STEP_B);
  }

  /** A goes round the spin loop of its last wait, where B has not arrived. */
  ghost predicate Round(s: State, pc: Pc) {
    s.la.EndWait? && s.a.pc == pc && s.a.counting && s.b.cntr < s.a.cntr && !s.exit && s.itersA == 0
  }

  lemma ToEnd(c: Config, s0: State, s: State) returns (t: State)
    requires Reaches(c, s0, s) && s.la.StartWait? && s.a == Thread(Out, 1, 1, false) && s.b.cntr == 2
    requires c.max >= 4 && !s.exit && s.itersA == 0
    ensures Reaches(c, s0, t) && Round(t, FrontOur)
  {
    var s1 := PassA(c, s0, s);
    var s2 := Next(c, s1, STEP_A);
    ReachesNext(c, s0, s1, STEP_A);
    var s3 := Next(c, s2, STEP_A);
    ReachesNext(c, s0, s2, STEP_A);
    t := Next(c, s3, STEP_A);
    ReachesNext(c, s0, s3, STEP_A);
  }

  lemma ReachAlone(c: Config, s0: State, spins: int, first: (int, int)) returns (t: State)
    requires c.max >= 4 && c.loops >= 1 && s0 == Init(spins, first.0, first.1)
    ensures Reaches(c, s0, t) && Round(t, FrontOur)
  {
    assert RunPair(c, s0, []) == s0 && NoTimeUp([]);
    var s1 := Next(c, s0, STEP_B);
    ReachesNext(c, s0, s0, STEP_B);
    var s2 := ToStart(c, s0, s1);
    var s3 := Update(c, s0, s2);
    var s4 := Follow(c, s0, s3);
    t := ToEnd(c, s0, s4);
  }

  lemma SpinStart(c: Config, s0: State, s: State) returns (t: State)
    requires Reaches(c, s0, s) && Round(s, FrontOur)
    ensures Reaches(c, s0, t) && Round(t, FrontExit) && t.spin == s.spin
  {
    var s1 := Next(c, s, STEP_A);
    ReachesNext(c, s0, s, STEP_A);
    assert s1.a.pc == FrontOther(s.b.cntr);
    t := Next(c, s1, STEP_A);
    ReachesNext(c, s0, s1, STEP_A);
  }

  lemma SpinStore(c: Config, s0: State, s: State) returns (t: State)
    requires Reaches(c, s0, s) && Round(s, FrontExit)
    ensures Reaches(c, s0, t) && Round(t, FrontOur) && t.spin.spun == s.spin.spun + 1
  {
    var s1 := Next(c, s, STEP_A);
    ReachesNext(c, s0, s, STEP_A);
    assert s1.a.pc == FrontSpin;
    var s2 := Next(c, s1, STEP_A);
    ReachesNext(c, s0, s1, STEP_A);
    t := Next(c, s2, STEP_A);
    ReachesNext(c, s0, s2, STEP_A);
  }

  lemma {:induction false} SpinUntil(c: Config, s0: State, s: State, goal: int) returns (t: State)
    requires Reaches(c, s0, s) && Round(s, FrontOur)
    ensures Reaches(c, s0, t) && Round(t, FrontOur) && t.spin.spun >= goal
    decreases goal - s.spin.spun
  {
    t := s;
    if s.spin.spun < goal {
      t := SpinStart(c, s0, s);
      t := SpinStore(c, s0, t);
      t := SpinUntil(c, s0, t, goal);
    }
  }

  /** The spins counted are in the next entry of the log, or still there. */
  lemma {:induction false} SpunLogged(c: Config, s: State, events: seq<Event>)
    ensures var t := RunPair(c, s, events);
      && |t.spin.log| >= |s.spin.log|
      && (if |t.spin.log| == |s.spin.log| then t.spin.spun >= s.spin.spun
          else t.spin.log[|s.spin.log|] >= s.spin.spun)
  {
    if events != [] {
      SpunLogged(c, s, events[..|events| - 1]);
      SpunStep(c, RunPair(c, s, events[..|events| - 1]), events[|events| - 1]);
    }
  }

  lemma SpunStep(c: Config, s: State, e: Event)
    ensures var t := Next(c, s, e);
      (t.spin.log == s.spin.log && t.spin.spun >= s.spin.spun) || t.spin.log == s.spin.log + [s.spin.spun]
  {
  }

  /** Without a time limit only the loop limit requests exit. */
  lemma {:induction false} ExitMeansLimit(c: Config, spins: int, first: (int, int), events: seq<Event>)
    requires c.max >= 2 && c.loops <= c.max && spins <= c.max && NoTimeUp(events)
    ensures var s := RunPair(c, Init(spins, first.0, first.1), events); s.exit ==> s.execLoop > c.loops && c.loops < c.max
  {
    if events != [] {
      var front := events[..|events| - 1];
      ExitMeansLimit(c, spins, first, front);
      RunInv(c, spins, first, front);
      ExitLimitStep(c, RunPair(c, Init(spins, first.0, first.1), front), events[|events| - 1]);
    }
  }

  lemma ExitLimitStep(c: Config, s: State, e: Event)
    requires c.max >= 2 && c.loops <= c.max && Counted(c, s) && Leaving(s) && Placed(c, s) && !e.timeUp
    requires s.exit ==> s.execLoop > c.loops && c.loops < c.max
    ensures var t := Next(c, s, e); t.exit ==> t.execLoop > c.loops && c.loops < c.max
  {
  }

  /** Far enough into a run, or at its end, two updates are over. */
  lemma TwoUpdates(c: Config, s: State)
    requires c.max >= 2 && 3 <= c.loops <= c.max && Placed(c, s) && Counted(c, s) && Leaving(s) && SpinsExact(c, s)
    requires (AllDone(s) && s.execLoop > c.loops && c.loops < c.max) || !Bounded(3, s)
    ensures |s.spin.log| >= 2
  {
  }

  /** From any state enough rounds bring two updates. */
  lemma UpdatesCome(c: Config, spins: int, first: (int, int), before: seq<Event>, s: State) returns (events: seq<Event>)
    requires c.max >= 2 && 3 <= c.loops <= c.max && spins <= c.max && NoTimeUp(before)
    requires s == RunPair(c, Init(spins, first.0, first.1), before)
    ensures NoTimeUp(before + events) && |RunPair(c, s, events).spin.log| >= 2
  {
    var rounds := if Bounded(3, s) then Rank(3, c, s) + 1 else 0;
    events := Alternate(rounds);
    AlternateRounds(rounds);
    RunInv(c, spins, first, before);
    RoundsPayOff(3, c, s, first, events);
    InvFrom(c, s, first, events);
    RunConcat(c, Init(spins, first.0, first.1), before, events);
    ExitMeansLimit(c, spins, first, before + events);
    TwoUpdates(c, RunPair(c, s, events));
  }

  /** Whatever the limits, some schedule makes the second update read a wrong number of spins. */
  lemma SpinsOverflow(c: Config, spins: int, first: (int, int)) returns (events: seq<Event>)
    requires c.max >= 4 && 3 <= c.loops <= c.max && spins <= c.max
    ensures NoTimeUp(events)
    ensures var n := RunPair(c, Init(spins, first.0, first.1), events).spin;
      |n.log| > 1 && |n.taken| > 1 && n.log[1] > c.max && n.taken[1] != n.log[1]
  {
    var s0 := Init(spins, first.0, first.1);
    var s := ReachAlone(c, s0, spins, first);
    s := SpinUntil(c, s0, s, c.max + 1);
    var before :| NoTimeUp(before) && RunPair(c, s0, before) == s;
    RunInv(c, spins, first, before);
    assert |s.spin.log| == 1;
    var after := UpdatesCome(c, spins, first, before, s);
    SpunLogged(c, s, after);
    RunConcat(c, s0, before, after);
    events := before + after;
    OrderedHandOff(c, spins, first, events);
  }
}
