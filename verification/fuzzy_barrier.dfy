/**
 The spin barrier of the fuzzy-sync library: `tst_fzsync_pair_wait`, one atomic
 memory access per step.

 Every thread owns one counter, the one it increments on arrival (its
 `other_cntr` argument), and only ever reads the counter of its peer (its
 `our_cntr` argument).  `max` stands for INT_MAX.  The field `arrivals` is
 history: the number of waits the thread has entered so far.
 */
module FuzzyBarrier {

  /** Where a thread stands inside a wait; each constructor is one memory access. */
  datatype Pc =
    | Out                        // not inside a wait
    | ResetLow                   // load our_cntr, compare with 0
    | ResetHigh                  // load our_cntr again, compare with INT_MAX
    | ResetExit                  // load exit
    | ResetSpin                  // read *spins
    | ResetSpinStore(seen: int)  // write *spins
    | ResetStore                 // store 0 in other_cntr
    | DrainLoad                  // load our_cntr, compare with 1
    | DrainExit                  // load exit
    | FrontOur                   // load our_cntr
    | FrontOther(ours: int)      // load other_cntr, compare
    | FrontExit                  // load exit
    | FrontSpin                  // read *spins
    | FrontSpinStore(seen: int)  // write *spins

  /** `counting` says whether the wait was handed a spin counter. */
  datatype Thread = Thread(pc: Pc, cntr: int, arrivals: nat, counting: bool)

  /** Incrementing an int, wrapped around. */
  function Bump(max: int, n: int): int {
    if n == max then -max - 1 else n + 1
  }

  /** The atomic increment that opens a wait, and the branch on its result. */
  function Arrive(max: int, me: Thread, counting: bool): Thread {
    var c := me.cntr + 1;
    Thread(if c == max then ResetLow else FrontOur, c, me.arrivals + 1, counting)
  }

  /** One memory access inside a wait.  `ours` is the peer's counter. */
  function Advance(max: int, me: Thread, ours: int, exit: bool, spins: int): (Thread, int)
    requires me.pc != Out
  {
    match me.pc
    case ResetLow => (me.(pc := if ours > 0 then ResetHigh else ResetStore), spins)
    case ResetHigh => (me.(pc := if ours < max then ResetExit else ResetStore), spins)
    case ResetExit =>
      (me.(pc := if exit then ResetStore else if me.counting then ResetSpin else ResetLow), spins)
    case ResetSpin => (me.(pc := ResetSpinStore(spins)), spins)
    case ResetSpinStore(seen) => (me.(pc := ResetLow), Bump(max, seen))
    case ResetStore => (me.(pc := DrainLoad, cntr := 0), spins)
    case DrainLoad => (me.(pc := if ours > 1 then DrainExit else Out), spins)
    case DrainExit => (me.(pc := if exit then Out else DrainLoad), spins)
    case FrontOur => (me.(pc := FrontOther(ours)), spins)
    case FrontOther(seen) => (me.(pc := if seen < me.cntr then FrontExit else Out), spins)
    case FrontExit =>
      (me.(pc := if exit then Out else if me.counting then FrontSpin else FrontOur), spins)
    case FrontSpin => (me.(pc := FrontSpinStore(spins)), spins)
    case FrontSpinStore(seen) => (me.(pc := FrontOur), Bump(max, seen))
  }

  /** The counter has hit INT_MAX and has not been stored back to zero yet. */
  predicate InReset(pc: Pc) {
    pc.ResetLow? || pc.ResetHigh? || pc.ResetExit? || pc.ResetSpin? || pc.ResetSpinStore? || pc.ResetStore?
  }

  predicate InDrain(pc: Pc) {
    pc.DrainLoad? || pc.DrainExit?
  }

  predicate InFront(pc: Pc) {
    pc.FrontOur? || pc.FrontOther? || pc.FrontExit? || pc.FrontSpin? || pc.FrontSpinStore?
  }

  /** The thread is inside the non-atomic increment of the shared spin counter. */
  predicate Spinning(pc: Pc) {
    pc.ResetSpin? || pc.ResetSpinStore? || pc.FrontSpin? || pc.FrontSpinStore?
  }

  /** What one thread maintains whatever its peer and the exit flag do. */
  ghost predicate Local(max: int, x: Thread)
    requires max >= 2
  {
    && x.cntr == (if InReset(x.pc) then max else x.arrivals % max)
    && (InReset(x.pc) || InDrain(x.pc) ==> x.arrivals > 0 && x.arrivals % max == 0)
    && (InFront(x.pc) ==> x.arrivals > 0 && x.arrivals % max != 0)
    && (Spinning(x.pc) ==> x.counting)
  }

  /** The thread has seen its peer behind and is on its way round the spin loop. */
  predicate Committed(x: Thread) {
    || x.pc.ResetExit? || x.pc.FrontExit? || Spinning(x.pc)
    || (x.pc.FrontOther? && x.pc.ours < x.cntr)
  }

  /** What a thread knows of its peer while exit is unset. */
  ghost predicate Knows(max: int, x: Thread, y: Thread) {
    && x.arrivals <= y.arrivals + 1
    && (x.pc.Out? || x.pc.ResetStore? || InDrain(x.pc) ==> x.arrivals <= y.arrivals)
    && (x.pc.FrontOther? && x.pc.ours >= x.cntr ==> x.arrivals <= y.arrivals)
    && (InReset(x.pc) ==>
          || x.arrivals == y.arrivals + 1
          || (x.arrivals == y.arrivals && (InReset(y.pc) || InDrain(y.pc))))
  }

  /** The barrier invariant, symmetric in the two threads. */
  ghost predicate Synced(max: int, x: Thread, y: Thread)
    requires max >= 2
  {
    && Local(max, x) && Local(max, y)
    && Knows(max, x, y) && Knows(max, y, x)
    && (x.arrivals == y.arrivals ==> !(Committed(x) && Committed(y)))
  }

  lemma ModSucc(max: int, n: nat)
    requires max >= 2
    ensures (n + 1) % max == if n % max == max - 1 then 0 else n % max + 1
  {
    var q, r := n / max, n % max;
    assert n == q * max + r;
    if r == max - 1 {
      assert n + 1 == (q + 1) * max;
      ModUnique(max, n + 1, q + 1, 0);
    } else {
      ModUnique(max, n + 1, q, r + 1);
    }
  }

  lemma ModUnique(max: int, n: nat, q: int, r: int)
    requires max >= 2 && 0 <= r < max && n == q * max + r
    ensures n % max == r
  {
    var d := n / max - q;
    assert d * max == r - n % max;
    assert d >= 1 ==> d * max >= max;
    assert d <= -1 ==> d * max <= -max;
  }

  lemma ArriveLocal(max: int, x: Thread, counting: bool)
    requires max >= 2 && Local(max, x) && x.pc.Out?
    ensures Local(max, Arrive(max, x, counting))
    ensures 0 < Arrive(max, x, counting).cntr <= max
  {
    ModSucc(max, x.arrivals);
  }

  lemma AdvanceLocal(max: int, x: Thread, ours: int, exit: bool, spins: int)
    requires max >= 2 && Local(max, x) && !x.pc.Out?
    ensures Local(max, Advance(max, x, ours, exit, spins).0)
  {
  }

  lemma ArriveSynced(max: int, x: Thread, y: Thread, counting: bool)
    requires max >= 2 && Synced(max, x, y) && x.pc.Out?
    ensures Synced(max, Arrive(max, x, counting), y)
  {
    ModSucc(max, x.arrivals);
    ModSucc(max, y.arrivals);
  }

  lemma AdvanceSynced(max: int, x: Thread, y: Thread, spins: int)
    requires max >= 2 && Synced(max, x, y) && !x.pc.Out?
    ensures Synced(max, Advance(max, x, y.cntr, false, spins).0, y)
  {
    ModSucc(max, x.arrivals);
    ModSucc(max, y.arrivals);
  }

  // ----- Whole runs, whatever the two clients do between their waits -----

  datatype Who = A | B

  datatype Pair = Pair(a: Thread, b: Thread, spins: int)

  /** One scheduling decision; `counting` matters only when it opens a wait. */
  datatype Turn = Turn(who: Who, counting: bool)

  const Fresh := Thread(Out, 0, 0, false)

  function Step(max: int, p: Pair, t: Turn): Pair {
    match t.who
    case A =>
      if p.a.pc.Out? then p.(a := Arrive(max, p.a, t.counting))
      else var (a, spins) := Advance(max, p.a, p.b.cntr, false, p.spins); Pair(a, p.b, spins)
    case B =>
      if p.b.pc.Out? then p.(b := Arrive(max, p.b, t.counting))
      else var (b, spins) := Advance(max, p.b, p.a.cntr, false, p.spins); Pair(p.a, b, spins)
  }

  function Run(max: int, spins: int, turns: seq<Turn>): Pair {
    if turns == [] then Pair(Fresh, Fresh, spins)
    else Step(max, Run(max, spins, turns[..|turns| - 1]), turns[|turns| - 1])
  }

  /** The spin guard of x, evaluated in one go. */
  predicate Guard(max: int, x: Thread, ours: int) {
    || (InReset(x.pc) && !x.pc.ResetStore? && 0 < ours < max)
    || (InDrain(x.pc) && ours > 1)
    || (InFront(x.pc) && ours < x.cntr)
  }

  lemma SyncedSymmetric(max: int, x: Thread, y: Thread)
    requires max >= 2 && Synced(max, x, y)
    ensures Synced(max, y, x)
  {
  }

  lemma NeverBothBlocked(max: int, x: Thread, y: Thread)
    requires max >= 2 && Synced(max, x, y)
    ensures !(Guard(max, x, y.cntr) && Guard(max, y, x.cntr))
  {
    ModSucc(max, x.arrivals);
    ModSucc(max, y.arrivals);
  }

  lemma StepSynced(max: int, p: Pair, t: Turn)
    requires max >= 2 && Synced(max, p.a, p.b)
    ensures Synced(max, Step(max, p, t).a, Step(max, p, t).b)
  {
    match t.who
    case A =>
      if p.a.pc.Out? {
        ArriveSynced(max, p.a, p.b, t.counting);
      } else {
        AdvanceSynced(max, p.a, p.b, p.spins);
      }
    case B =>
      SyncedSymmetric(max, p.a, p.b);
      if p.b.pc.Out? {
        ArriveSynced(max, p.b, p.a, t.counting);
      } else {
        AdvanceSynced(max, p.b, p.a, p.spins);
      }
  }

  lemma {:induction false} RunSynced(max: int, spins: int, turns: seq<Turn>)
    requires max >= 2
    ensures var p := Run(max, spins, turns); Synced(max, p.a, p.b)
  {
    if turns != [] {
      RunSynced(max, spins, turns[..|turns| - 1]);
      StepSynced(max, Run(max, spins, turns[..|turns| - 1]), turns[|turns| - 1]);
    }
  }

  /**
   Barrier safety in every interleaving, for any number of waits and across every
   wrap-around: a thread that is out of its k-th wait has a peer that made its
   k-th arrival, no thread is ever two arrivals ahead, the counters never leave
   [0, INT_MAX], and the spin guards of the two threads never hold together.
   */
  lemma BarrierSafety(max: int, spins: int, turns: seq<Turn>)
    requires max >= 2
    ensures var p := Run(max, spins, turns);
      && (p.a.pc.Out? ==> p.a.arrivals <= p.b.arrivals)
      && (p.b.pc.Out? ==> p.b.arrivals <= p.a.arrivals)
      && -1 <= p.a.arrivals - p.b.arrivals <= 1
      && 0 <= p.a.cntr <= max && 0 <= p.b.cntr <= max
      && !(Guard(max, p.a, p.b.cntr) && Guard(max, p.b, p.a.cntr))
  {
    RunSynced(max, spins, turns);
    var p := Run(max, spins, turns);
    NeverBothBlocked(max, p.a, p.b);
  }

  // ----- Progress inside a wait -----

  /** The thread spins until its peer moves. */
  predicate Blocked(max: int, x: Thread, ours: int, exit: bool) {
    !exit && Guard(max, x, ours)
  }

  /** A bound on the steps a thread that is not blocked needs to leave its wait. */
  function WaitRank(max: int, x: Thread, ours: int, exit: bool): nat
    requires x.pc != Out
  {
    match x.pc
    case ResetStore => 4
    case DrainLoad => if Blocked(max, x, ours, exit) then 3 else 2
    case DrainExit => if exit then 1 else 3
    case ResetLow =>
      if Blocked(max, x, ours, exit) then 15 else if exit then 7 else if ours <= 0 then 7 else 12
    case ResetHigh =>
      if Blocked(max, x, ours, exit) then 15 else if exit then 6 else 11
    case ResetExit =>
      if Blocked(max, x, ours, exit) then 15 else if exit then 5 else if ours <= 0 then 10 else 15
    case ResetSpin =>
      if Blocked(max, x, ours, exit) then 15 else if exit then 9 else if ours <= 0 then 9 else 14
    case ResetSpinStore(_) =>
      if Blocked(max, x, ours, exit) then 15 else if exit then 8 else if ours <= 0 then 8 else 13
    case FrontOur => if Blocked(max, x, ours, exit) then 9 else if exit then 3 else 5
    case FrontOther(seen) =>
      if Blocked(max, x, ours, exit) then 9 else if exit then 2 else if seen < x.cntr then 9 else 4
    case FrontExit => if Blocked(max, x, ours, exit) then 9 else if exit then 1 else 8
    case FrontSpin => if Blocked(max, x, ours, exit) then 9 else if exit then 5 else 7
    case FrontSpinStore(_) => if Blocked(max, x, ours, exit) then 9 else if exit then 4 else 6
  }

  /**
   A blocked thread keeps spinning without getting further from the end; any
   other step inside a wait leaves it or gets strictly closer.
   */
  lemma AdvanceRank(max: int, x: Thread, ours: int, exit: bool, spins: int)
    requires max >= 2 && Local(max, x) && !x.pc.Out?
    requires x.pc.FrontOther? && x.pc.ours >= x.cntr ==> !Blocked(max, x, ours, exit)
    ensures var x' := Advance(max, x, ours, exit, spins).0;
      if Blocked(max, x, ours, exit)
      then x'.pc != Out && Blocked(max, x', ours, exit)
           && WaitRank(max, x', ours, exit) == WaitRank(max, x, ours, exit)
      else x'.pc == Out || WaitRank(max, x', ours, exit) < WaitRank(max, x, ours, exit)
  {
  }

  /** Nothing the peer does blocks a thread anew or takes it further from leaving. */
  lemma PeerRank(max: int, x: Thread, y: Thread, y': Thread, spins: int, counting: bool)
    requires max >= 2 && Synced(max, x, y) && !x.pc.Out?
    requires y' == if y.pc.Out? then Arrive(max, y, counting) else Advance(max, y, x.cntr, false, spins).0
    ensures WaitRank(max, x, y'.cntr, false) <= WaitRank(max, x, y.cntr, false)
    ensures Blocked(max, x, y'.cntr, false) ==> Blocked(max, x, y.cntr, false)
  {
    ModSucc(max, x.arrivals);
    ModSucc(max, y.arrivals);
  }

  /** Raising the exit flag, or moving the peer after that, only helps. */
  lemma ExitRank(max: int, x: Thread, ours: int, ours': int, exit: bool)
    requires !x.pc.Out?
    ensures WaitRank(max, x, ours', true) <= WaitRank(max, x, ours, exit)
  {
  }

}
