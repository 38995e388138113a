/**
 Progress under fair schedules.  A schedule is cut into rounds, a round ending as soon
 as both threads have moved at least once.  Below INT_MAX the loop limit stops every
 fair run after a number of rounds bounded in terms of `exec_loops` alone; at INT_MAX
 it never does.
 */
module FuzzyLiveness {
  import opened FuzzyBarrier
  import opened FuzzyProgram

  function ClientRankA(la: LocA): nat {
    match la
    case Head => 3
    case Count => 2
    case RunWait => 1
    case RunExit => 9
    case UpdBias => 8
    case UpdStart => 7
    case UpdEnd => 6
    case UpdSpins => 5
    case UpdDelay => 4
    case UpdZero => 3
    case StartWait => 1
    case ReadDelay => 3
    case Body => 2
    case EndWait => 1
    case Join => 1
    case Done => 0
  }

  function ClientRankB(lb: LocB): nat {
    match lb
    case RunWaitB => 1
    case RunExitB => 2
    case StartWaitB => 1
    case ReadDelayB => 5
    case StampStartB => 4
    case BodyB => 3
    case StampEndB => 2
    case EndWaitB => 1
    case DoneB => 0
  }

  /** Waits still to come until `n` iterations are over, weighted, plus the distance to the next one. */
  function RankA(n: nat, c: Config, s: State): nat
    requires s.a.arrivals <= 3 * n + 1
  {
    (3 * n + 1 - s.a.arrivals) * 32
    + if s.a.pc.Out? then ClientRankA(s.la) else 16 + WaitRank(c.max, s.a, s.b.cntr, s.exit)
  }

  function RankB(n: nat, c: Config, s: State): nat
    requires s.b.arrivals <= 3 * n + 1
  {
    (3 * n + 1 - s.b.arrivals) * 32
    + if s.b.pc.Out? then ClientRankB(s.lb) else 16 + WaitRank(c.max, s.b, s.a.cntr, s.exit)
  }

  /** Neither thread is past the first wait after `n` iterations. */
  predicate Bounded(n: nat, s: State) {
    s.a.arrivals <= 3 * n + 1 && s.b.arrivals <= 3 * n + 1
  }

  function Rank(n: nat, c: Config, s: State): nat
    requires Bounded(n, s)
  {
    RankA(n, c, s) + RankB(n, c, s)
  }

  predicate AllDone(s: State) {
    s.la.Done? && s.lb.DoneB?
  }

  /** Thread A cannot get on by itself. */
  predicate StuckA(c: Config, s: State) {
    || s.la.Done?
    || (s.la.Join? && !s.lb.DoneB?)
    || (!s.a.pc.Out? && Blocked(c.max, s.a, s.b.cntr, s.exit))
  }

  predicate StuckB(c: Config, s: State) {
    || s.lb.DoneB?
    || (!s.b.pc.Out? && Blocked(c.max, s.b, s.a.cntr, s.exit))
  }

  /** The thread whose next step is sure to bring the end closer. */
  function Helpful(c: Config, s: State): Who {
    if StuckA(c, s) then B else A
  }

  lemma InvBounded(c: Config, s: State)
    requires c.loops < c.max && Placed(c, s) && Counted(c, s) && Leaving(s)
    ensures Bounded(c.loops, s)
  {
  }

  lemma NotBothStuck(c: Config, s: State)
    requires c.max >= 2 && InStep(c, s) && Placed(c, s) && Leaving(s) && !AllDone(s)
    ensures !(StuckA(c, s) && StuckB(c, s))
  {
    if !s.exit {
      NeverBothBlocked(c.max, s.a, s.b);
    }
  }

  /** A's own step: it spins in place when stuck and gets closer otherwise. */
  lemma OwnRankA(n: nat, c: Config, s: State, e: Event)
    requires c.max >= 2 && InStep(c, s) && Placed(c, s) && Leaving(s) && Bounded(n, s)
    requires Bounded(n, NextA(c, s, e))
    ensures var s' := NextA(c, s, e);
      if StuckA(c, s) then RankA(n, c, s') == RankA(n, c, s) && StuckA(c, s')
      else RankA(n, c, s') < RankA(n, c, s)
  {
    if !s.a.pc.Out? {
      AdvanceFrame(c.max, s.a, s.b.cntr, s.exit, s.spin.value);
      FrontOtherFresh(c, s.a, s.b, s.exit);
      AdvanceRank(c.max, s.a, s.b.cntr, s.exit, s.spin.value);
    }
  }

  /** A loaded value that lets a thread go is never contradicted later. */
  lemma FrontOtherFresh(c: Config, x: Thread, y: Thread, exit: bool)
    requires c.max >= 2 && (exit || Synced(c.max, x, y))
    ensures x.pc.FrontOther? && x.pc.ours >= x.cntr ==> !Blocked(c.max, x, y.cntr, exit)
  {
    ModSucc(c.max, x.arrivals);
    ModSucc(c.max, y.arrivals);
  }

  lemma OwnRankB(n: nat, c: Config, s: State, e: Event)
    requires c.max >= 2 && InStep(c, s) && Placed(c, s) && Leaving(s) && Bounded(n, s)
    requires Bounded(n, NextB(c, s, e))
    ensures var s' := NextB(c, s, e);
      if StuckB(c, s) then RankB(n, c, s') == RankB(n, c, s) && StuckB(c, s')
      else RankB(n, c, s') < RankB(n, c, s)
  {
    if !s.b.pc.Out? {
      AdvanceFrame(c.max, s.b, s.a.cntr, s.exit, s.spin.value);
      if !s.exit { SyncedSymmetric(c.max, s.a, s.b); }
      FrontOtherFresh(c, s.b, s.a, s.exit);
      AdvanceRank(c.max, s.b, s.a.cntr, s.exit, s.spin.value);
    }
  }

  /** A's step as B sees it. */
  lemma SeenByB(c: Config, s: State, e: Event)
    ensures var s' := NextA(c, s, e);
      && s'.b == s.b && s'.lb == s.lb && (s.exit ==> s'.exit)
      && (if WaitingA(s.la) then
            && s'.exit == s.exit
            && s'.a == if s.a.pc.Out? then Arrive(c.max, s.a, s.la.EndWait?)
                       else Advance(c.max, s.a, s.b.cntr, s.exit, s.spin.value).0
          else s'.a == s.a)
  {
  }

  lemma PeerWait(c: Config, s: State, s': State)
    requires c.max >= 2 && !s'.exit && Synced(c.max, s.a, s.b) && !s.b.pc.Out?
    requires s'.a == if s.a.pc.Out? then Arrive(c.max, s.a, s.la.EndWait?)
                     else Advance(c.max, s.a, s.b.cntr, false, s.spin.value).0
    ensures WaitRank(c.max, s.b, s'.a.cntr, false) <= WaitRank(c.max, s.b, s.a.cntr, false)
    ensures Blocked(c.max, s.b, s'.a.cntr, false) ==> Blocked(c.max, s.b, s.a.cntr, false)
  {
    SyncedSymmetric(c.max, s.a, s.b);
    PeerRank(c.max, s.b, s.a, s'.a, s.spin.value, s.la.EndWait?);
  }

  /** A's step never sets B back. */
  lemma PeerRankB(n: nat, c: Config, s: State, e: Event, s': State)
    requires c.max >= 2 && InStep(c, s) && Bounded(n, s)
    requires s' == NextA(c, s, e)
    ensures Bounded(n, s') ==> RankB(n, c, s') <= RankB(n, c, s) && (StuckB(c, s') ==> StuckB(c, s))
  {
    SeenByB(c, s, e);
    if !s.b.pc.Out? {
      if s'.exit {
        ExitRank(c.max, s.b, s.a.cntr, s'.a.cntr, s.exit);
      } else if WaitingA(s.la) {
        PeerWait(c, s, s');
      }
    }
  }

  lemma PeerRankA(n: nat, c: Config, s: State, e: Event)
    requires c.max >= 2 && InStep(c, s) && Placed(c, s) && Leaving(s) && Bounded(n, s)
    requires Bounded(n, NextB(c, s, e))
    ensures var s' := NextB(c, s, e); RankA(n, c, s') <= RankA(n, c, s) && (StuckA(c, s') ==> StuckA(c, s))
  {
    var s' := NextB(c, s, e);
    if !s.a.pc.Out? {
      if s'.exit {
        ExitRank(c.max, s.a, s.b.cntr, s'.b.cntr, s.exit);
      } else if WaitingB(s.lb) {
        PeerRank(c.max, s.a, s.b, s'.b, s.spin.value, s.lb.EndWaitB?);
      }
    }
  }

  /** The helpful thread gets closer; the other one never undoes that. */
  lemma RankStep(n: nat, c: Config, s: State, e: Event)
    requires c.max >= 2 && InStep(c, s) && Placed(c, s) && Leaving(s) && Bounded(n, s) && !AllDone(s)
    requires Bounded(n, Next(c, s, e))
    ensures var s' := Next(c, s, e);
      || Rank(n, c, s') < Rank(n, c, s)
      || (Rank(n, c, s') == Rank(n, c, s) && e.who != Helpful(c, s) && Helpful(c, s') == Helpful(c, s))
  {
    var s' := Next(c, s, e);
    NotBothStuck(c, s);
    if e.who.A? {
      OwnRankA(n, c, s, e);
      PeerRankB(n, c, s, e, s');
    } else {
      OwnRankB(n, c, s, e);
      PeerRankA(n, c, s, e);
    }
  }

  /** Completed rounds, and which threads have moved in the current one. */
  datatype Tally = Tally(rounds: nat, sawA: bool, sawB: bool)

  function CountRounds(events: seq<Event>): Tally {
    if events == [] then Tally(0, false, false)
    else
      var t := CountRounds(events[..|events| - 1]);
      var sawA := t.sawA || events[|events| - 1].who.A?;
      var sawB := t.sawB || events[|events| - 1].who.B?;
      if sawA && sawB then Tally(t.rounds + 1, false, false) else Tally(t.rounds, sawA, sawB)
  }

  lemma NextKeeps(n: nat, c: Config, s: State, e: Event)
    ensures Bounded(n, Next(c, s, e)) ==> Bounded(n, s)
    ensures AllDone(s) ==> AllDone(Next(c, s, e))
  {
    if !s.a.pc.Out? {
      AdvanceFrame(c.max, s.a, s.b.cntr, s.exit, s.spin.value);
    }
    if !s.b.pc.Out? {
      AdvanceFrame(c.max, s.b, s.a.cntr, s.exit, s.spin.value);
    }
  }

  lemma {:induction false} InvFrom(c: Config, s0: State, first: (int, int), events: seq<Event>)
    requires c.max >= 2 && c.loops <= c.max && Inv(c, s0, first)
    ensures Inv(c, RunPair(c, s0, events), first)
  {
    if events != [] {
      InvFrom(c, s0, first, events[..|events| - 1]);
      NextInv(c, RunPair(c, s0, events[..|events| - 1]), events[|events| - 1], first);
    }
  }

  /** Where a run from `s0` to `s` in `t` stands: every round has brought the end closer. */
  ghost predicate PaidOff(n: nat, c: Config, s0: State, s: State, t: Tally) {
    && Bounded(n, s0) && Bounded(n, s)
    && Rank(n, c, s) + t.rounds <= Rank(n, c, s0)
    && ((if Helpful(c, s).A? then t.sawA else t.sawB) ==> Rank(n, c, s) + t.rounds < Rank(n, c, s0))
  }

  lemma {:induction false} RoundsPayOff(n: nat, c: Config, s0: State, first: (int, int), events: seq<Event>)
    requires c.max >= 2 && c.loops <= c.max && Inv(c, s0, first)
    ensures var s := RunPair(c, s0, events);
      Bounded(n, s) && !AllDone(s) ==> PaidOff(n, c, s0, s, CountRounds(events))
  {
    if events != [] {
      var front, e := events[..|events| - 1], events[|events| - 1];
      var s := RunPair(c, s0, front);
      RoundsPayOff(n, c, s0, first, front);
      InvFrom(c, s0, first, front);
      NextKeeps(n, c, s, e);
      if Bounded(n, Next(c, s, e)) && !AllDone(Next(c, s, e)) {
        RankStep(n, c, s, e);
      }
    }
  }

  /**
   Every fair run gets on: after 192 * n + 69 rounds from the reset either both loops have
   ended or a thread is past its n-th iteration, whatever the loop limit.
   */
  lemma FairRunsProgress(n: nat, c: Config, spins: int, first: (int, int), events: seq<Event>)
    requires c.max >= 2 && c.loops <= c.max && spins <= c.max && CountRounds(events).rounds > 192 * n + 68
    ensures var s := RunPair(c, Init(spins, first.0, first.1), events); AllDone(s) || !Bounded(n, s)
  {
    InitInv(c, spins, first);
    RoundsPayOff(n, c, Init(spins, first.0, first.1), first, events);
  }

  /**
   With a limit below INT_MAX, whatever the schedule does inside its rounds and whatever
   times, delays and clock readings come up: after 192 * exec_loops + 69 rounds both
   threads have left their loops, thread A having joined thread B.
   */
  lemma FairRunsStop(c: Config, spins: int, first: (int, int), events: seq<Event>)
    requires c.max >= 2 && c.loops < c.max && spins <= c.max
    requires CountRounds(events).rounds > 192 * c.loops + 68
    ensures AllDone(RunPair(c, Init(spins, first.0, first.1), events))
  {
    FairRunsProgress(c.loops, c, spins, first, events);
    RunInv(c, spins, first, events);
    InvBounded(c, RunPair(c, Init(spins, first.0, first.1), events));
  }

  // ----- Once exit is requested -----

  lemma ExitStep(c: Config, s: State, e: Event)
    requires Leaving(s) && s.exit
    ensures Next(c, s, e).exit && Next(c, s, e).itersA == s.itersA
  {
  }

  lemma ExitBound(c: Config, s: State)
    requires Placed(c, s) && Leaving(s) && s.exit
    ensures Bounded(s.itersA, s)
  {
  }

  lemma {:induction false} ExitBounds(c: Config, s0: State, first: (int, int), events: seq<Event>)
    requires c.max >= 2 && c.loops <= c.max && Inv(c, s0, first) && s0.exit
    ensures var s := RunPair(c, s0, events); s.exit && s.itersA == s0.itersA && Bounded(s0.itersA, s)
  {
    if events != [] {
      var front := events[..|events| - 1];
      ExitBounds(c, s0, first, front);
      InvFrom(c, s0, first, front);
      ExitStep(c, RunPair(c, s0, front), events[|events| - 1]);
    }
    InvFrom(c, s0, first, events);
    ExitBound(c, RunPair(c, s0, events));
  }

  /** From any state reached with exit set, 98 rounds are enough, whatever the loop limit. */
  lemma ExitStops(c: Config, spins: int, first: (int, int), before: seq<Event>, after: seq<Event>)
    requires c.max >= 2 && c.loops <= c.max && spins <= c.max && CountRounds(after).rounds > 97
    requires RunPair(c, Init(spins, first.0, first.1), before).exit
    ensures AllDone(RunPair(c, RunPair(c, Init(spins, first.0, first.1), before), after))
  {
    var s0 := RunPair(c, Init(spins, first.0, first.1), before);
    RunInv(c, spins, first, before);
    ExitBounds(c, s0, first, after);
    RoundsPayOff(s0.itersA, c, s0, first, after);
    ExitRankBound(c, s0);
  }

  lemma ExitRankBound(c: Config, s: State)
    requires Placed(c, s) && Leaving(s) && s.exit && Bounded(s.itersA, s)
    ensures Rank(s.itersA, c, s) <= 97
  {
  }

  // ----- The loop limit at INT_MAX -----

  predicate NoTimeUp(events: seq<Event>) {
    forall i :: 0 <= i < |events| ==> !events[i].timeUp
  }

  lemma NoExitStep(c: Config, s: State, e: Event)
    requires c.loops == c.max && s.execLoop <= c.max && !s.exit && !e.timeUp
    ensures !Next(c, s, e).exit
  {
  }

  /** At INT_MAX the loop limit alone never requests exit. */
  lemma {:induction false} NeverExits(c: Config, spins: int, first: (int, int), events: seq<Event>)
    requires c.max >= 2 && c.loops == c.max && spins <= c.max && NoTimeUp(events)
    ensures !RunPair(c, Init(spins, first.0, first.1), events).exit
  {
    if events != [] {
      var front := events[..|events| - 1];
      NeverExits(c, spins, first, front);
      RunInv(c, spins, first, front);
      NoExitStep(c, RunPair(c, Init(spins, first.0, first.1), front), events[|events| - 1]);
    }
  }

  /** At INT_MAX every fair run without a time limit executes its bodies without end. */
  lemma NeverStops(n: nat, c: Config, spins: int, first: (int, int), events: seq<Event>)
    requires c.max >= 2 && c.loops == c.max && spins <= c.max && NoTimeUp(events)
    requires CountRounds(events).rounds > 192 * n + 68
    ensures var s := RunPair(c, Init(spins, first.0, first.1), events); !AllDone(s) && s.bodiesA >= n
  {
    NeverExits(c, spins, first, events);
    RunInv(c, spins, first, events);
    FairRunsProgress(n, c, spins, first, events);
  }

  /** The two threads moving in turn. */
  function Alternate(rounds: nat): (events: seq<Event>)
    ensures NoTimeUp(events)
  {
    if rounds == 0 then [] else Alternate(rounds - 1) + [Event(A, false, 0)] + [Event(B, false, 0)]
  }

  lemma {:induction false} AlternateRounds(n: nat)
    ensures CountRounds(Alternate(n)) == Tally(n, false, false)
  {
    if n > 0 {
      AlternateRounds(n - 1);
      var front := Alternate(n - 1) + [Event(A, false, 0)];
      assert front[..|front| - 1] == Alternate(n - 1);
      assert Alternate(n)[..|Alternate(n)| - 1] == front;
    }
  }

  /** No run executes more bodies than the limit allows. */
  ghost predicate LimitKept(c: Config) {
    forall spins, bStart, bEnd, events :: spins <= c.max ==>
      var s := RunPair(c, Init(spins, bStart, bEnd), events); s.bodiesA <= c.loops && s.bodiesB <= c.loops
  }

  /** Every fair run stops within the rounds the limit allows. */
  ghost predicate LimitStops(c: Config) {
    forall spins, bStart, bEnd, events :: spins <= c.max && CountRounds(events).rounds > 192 * c.loops + 68 ==>
      AllDone(RunPair(c, Init(spins, bStart, bEnd), events))
  }

  /** The loop limit is kept, and stops every fair run, if and only if it is below INT_MAX. */
  lemma LoopLimitExactly(c: Config)
    requires c.max >= 2 && c.loops <= c.max
    ensures LimitKept(c) <==> c.loops < c.max
    ensures LimitStops(c) <==> c.loops < c.max
  {
    if c.loops < c.max {
      forall spins, bStart, bEnd, events | spins <= c.max
        ensures var s := RunPair(c, Init(spins, bStart, bEnd), events); s.bodiesA <= c.loops && s.bodiesB <= c.loops
      {
        CleanShutdown(c, spins, (bStart, bEnd), events);
      }
      forall spins, bStart, bEnd, events | spins <= c.max && CountRounds(events).rounds > 192 * c.loops + 68
        ensures AllDone(RunPair(c, Init(spins, bStart, bEnd), events))
      {
        FairRunsStop(c, spins, (bStart, bEnd), events);
      }
    } else {
      var n := c.loops + 1;
      var events := Alternate(192 * n + 69);
      AlternateRounds(192 * n + 69);
      NeverStops(n, c, 0, (0, 0), events);
      var s := RunPair(c, Init(0, 0, 0), events);
      assert s.bodiesA > c.loops && !AllDone(s);
    }
  }
}
