/**
 The statistics behind the random delay: tst_upd_stat, tst_fzsync_pair_update,
 tst_fzsync_pair_add_bias and the sampling cut-off in tst_fzsync_run_a.  Floats are
 reals; drand48 is any number in [0, 1).
 */
module FuzzySampling {

  datatype Stat = Stat(avg: real, dev: real, ratio: real)

  /** The fields of tst_fzsync_pair that the statistics live in. */
  datatype Pair = Pair(ss: Stat, sa: Stat, sb: Stat, ab: Stat, spinsAvg: Stat,
                       delay: int, bias: int, sampling: int, spins: int)

  /** What one update reads: the four time stamps in nanoseconds and a random number. */
  datatype Reading = Reading(aStart: int, aEnd: int, bStart: int, bEnd: int, random: real)

  /** The parameters tst_fzsync_pair_init leaves behind. */
  datatype Config = Config(alpha: real, maxDev: real, minSamples: int)

  ghost predicate ValidConfig(c: Config) {
    0.0 < c.alpha <= 1.0 && 0.0 < c.maxDev <= 1.0 && c.minSamples >= 20
  }

  function Abs(x: real): real {
    if x < 0.0 then -x else x
  }

  /** The C conversion from a floating-point number to an int. */
  function Trunc(x: real): int {
    if x >= 0.0 then x.Floor else -((-x).Floor)
  }

  function MovingAvg(alpha: real, sample: real, prev: real): real {
    alpha * sample + (1.0 - alpha) * prev
  }

  function UpdStat(s: Stat, alpha: real, sample: real): Stat {
    var avg := MovingAvg(alpha, sample, s.avg);
    var dev := MovingAvg(alpha, Abs(avg - sample), s.dev);
    Stat(avg, dev, Abs(if avg != 0.0 then dev / avg else 0.0))
  }

  function OverMaxDev(c: Config, p: Pair): bool {
    || p.ss.ratio > c.maxDev || p.sa.ratio > c.maxDev || p.sb.ratio > c.maxDev
    || p.ab.ratio > c.maxDev || p.spinsAvg.ratio > c.maxDev
  }

  /** The update still collects statistics. */
  predicate Samples(c: Config, p: Pair) {
    p.sampling > 0 || OverMaxDev(c, p)
  }

  function PerSpinTime(ab: real, spins: real): (t: real)
    ensures Abs(ab) >= 1.0 ==> t > 0.0
  {
    Abs(ab) / (if spins > 1.0 then spins else 1.0)
  }

  /** A point of the delay range [-sb, sa]. */
  function TimeDelay(random: real, sa: real, sb: real): real {
    random * (sa + sb) - sb
  }

  function Collect(c: Config, p: Pair, r: Reading): Pair {
    p.(ss := UpdStat(p.ss, c.alpha, (r.aStart - r.bStart) as real),
       sa := UpdStat(p.sa, c.alpha, (r.aEnd - r.aStart) as real),
       sb := UpdStat(p.sb, c.alpha, (r.bEnd - r.bStart) as real),
       ab := UpdStat(p.ab, c.alpha, (r.aEnd - r.bEnd) as real),
       spinsAvg := UpdStat(p.spinsAvg, c.alpha, p.spins as real),
       delay := p.bias,
       sampling := if p.sampling > 0 then p.sampling - 1 else p.sampling,
       spins := 0)
  }

  /** A delay of 1.1 times `time`, as a number of spins. */
  function Spins(time: real, perSpin: real): int
    requires perSpin != 0.0
  {
    Trunc(11.0 * time / 10.0 / perSpin)
  }

  function RandomDelay(p: Pair, random: real): int
    requires Abs(p.ab.avg) >= 1.0
  {
    Spins(TimeDelay(random, p.sa.avg, p.sb.avg), PerSpinTime(p.ab.avg, p.spinsAvg.avg))
  }

  function Updated(c: Config, p: Pair, r: Reading): Pair {
    if Samples(c, p) then Collect(c, p, r)
    else
      p.(delay := if Abs(p.ab.avg) >= 1.0 then p.bias + RandomDelay(p, r.random) else p.bias,
         sampling := if p.sampling == 0 then -1 else p.sampling,
         spins := 0)
  }

  /** The pair as the library keeps it, updated field by field. */
  class SyncPair {
    const config: Config
    var ss: Stat
    var sa: Stat
    var sb: Stat
    var ab: Stat
    var spinsAvg: Stat
    var delay: int
    var bias: int
    var sampling: int
    var spins: int

    ghost function View(): Pair
      reads this
    {
      Pair(ss, sa, sb, ab, spinsAvg, delay, bias, sampling, spins)
    }

    /** tst_fzsync_pair_reset; the deviation ratios and the spin count survive it. */
    constructor (config: Config, left: Pair)
      ensures this.config == config
      ensures View() == Reset(config, left)
    {
      this.config := config;
      ss := Stat(0.0, 0.0, left.ss.ratio);
      sa := Stat(0.0, 0.0, left.sa.ratio);
      sb := Stat(0.0, 0.0, left.sb.ratio);
      ab := Stat(0.0, 0.0, left.ab.ratio);
      spinsAvg := Stat(0.0, 0.0, left.spinsAvg.ratio);
      delay := 0;
      bias := 0;
      sampling := config.minSamples;
      spins := left.spins;
    }

    method Update(r: Reading)
      modifies this
      ensures View() == Updated(config, old(View()), r)
    {
      delay := bias;
      var over := ss.ratio > config.maxDev
                  || sa.ratio > config.maxDev
                  || sb.ratio > config.maxDev
                  || ab.ratio > config.maxDev
                  || spinsAvg.ratio > config.maxDev;
      if sampling > 0 || over {
        ss := UpdStat(ss, config.alpha, (r.aStart - r.bStart) as real);
        sa := UpdStat(sa, config.alpha, (r.aEnd - r.aStart) as real);
        sb := UpdStat(sb, config.alpha, (r.bEnd - r.bStart) as real);
        ab := UpdStat(ab, config.alpha, (r.aEnd - r.bEnd) as real);
        spinsAvg := UpdStat(spinsAvg, config.alpha, spins as real);
        if sampling > 0 {
          sampling := sampling - 1;
        }
      } else if Abs(ab.avg) >= 1.0 {
        var perSpin := PerSpinTime(ab.avg, spinsAvg.avg);
        var timeDelay := TimeDelay(r.random, sa.avg, sb.avg);
        delay := delay + Spins(timeDelay, perSpin);
        if sampling == 0 {
          sampling := -1;
        }
      } else if sampling == 0 {
        sampling := -1;
      }
      spins := 0;
    }

    method AddBias(change: int)
      modifies this`bias
      ensures View() == Biased(old(View()), change)
    {
      if sampling > 0 {
        bias := bias + change;
      }
    }

    /** The cut-off in run_a once half of the run time is used up. */
    method StopSampling()
      modifies this`sampling
      ensures View() == Stopped(old(View()))
    {
      if sampling > 0 {
        sampling := 0;
      }
    }

    /** The spins a wait counted, or what wrapping made of them. */
    method AddSpins(n: int)
      modifies this`spins
      ensures View() == old(View()).(spins := old(spins) + n)
    {
      spins := spins + n;
    }

    /** The calls on a pair between two resets, one after the other. */
    method Execute(ops: seq<Op>)
      modifies this
      ensures View() == Run(config, old(View()), ops)
    {
      ghost var goal := Run(config, View(), ops);
      assert ops[0..] == ops;
      for i := 0 to |ops|
        invariant Run(config, View(), ops[i..]) == goal
      {
        assert ops[i..][0] == ops[i] && ops[i..][1..] == ops[i + 1..];
        match ops[i]
        case Update(r) => Update(r);
        case AddBias(change) => AddBias(change);
        case Stop => StopSampling();
        case Spun(n) => AddSpins(n);
      }
    }
  }

  function Reset(c: Config, left: Pair): Pair {
    Pair(Stat(0.0, 0.0, left.ss.ratio), Stat(0.0, 0.0, left.sa.ratio), Stat(0.0, 0.0, left.sb.ratio),
         Stat(0.0, 0.0, left.ab.ratio), Stat(0.0, 0.0, left.spinsAvg.ratio), 0, 0, c.minSamples, left.spins)
  }

  function Biased(p: Pair, change: int): Pair {
    if p.sampling > 0 then p.(bias := p.bias + change) else p
  }

  function Stopped(p: Pair): Pair {
    if p.sampling > 0 then p.(sampling := 0) else p
  }

  // ----- Whole runs -----

  /** What happens to the pair between resets; a wait changes the spin count by any `n`, as it may wrap. */
  datatype Op = Update(r: Reading) | AddBias(change: int) | Stop | Spun(n: int)

  function Apply(c: Config, p: Pair, op: Op): Pair {
    match op
    case Update(r) => Updated(c, p, r)
    case AddBias(change) => Biased(p, change)
    case Stop => Stopped(p)
    case Spun(n) => p.(spins := p.spins + n)
  }

  function Run(c: Config, p: Pair, ops: seq<Op>): Pair
    decreases |ops|
  {
    if ops == [] then p else Run(c, Apply(c, p, ops[0]), ops[1..])
  }

  /** What the statistics decide is settled: nothing below will change any more. */
  predicate SameStats(p: Pair, q: Pair) {
    p.ss == q.ss && p.sa == q.sa && p.sb == q.sb && p.ab == q.ab && p.spinsAvg == q.spinsAvg && p.bias == q.bias
  }

  lemma {:induction false} SamplingNeverIncreases(c: Config, p: Pair, ops: seq<Op>)
    ensures Run(c, p, ops).sampling <= p.sampling
    decreases |ops|
  {
    if ops != [] {
      SamplingNeverIncreases(c, Apply(c, p, ops[0]), ops[1..]);
    }
  }

  /**
   Once the pair has stopped sampling, it has stopped for good: in every later state
   the averages, the deviations and the bias are the same and no update samples.
   */
  lemma {:induction false} SamplingFreezes(c: Config, p: Pair, ops: seq<Op>)
    requires !Samples(c, p)
    ensures var q := Run(c, p, ops); SameStats(p, q) && !Samples(c, q)
    decreases |ops|
  {
    if ops != [] {
      SamplingFreezes(c, Apply(c, p, ops[0]), ops[1..]);
    }
  }

  predicate NoStop(ops: seq<Op>) {
    forall i :: 0 <= i < |ops| ==> !ops[i].Stop?
  }

  function Updates(ops: seq<Op>): nat {
    if ops == [] then 0 else (if ops[0].Update? then 1 else 0) + Updates(ops[1..])
  }

  /**
   Without a cut-off exactly one mandatory sample is used up per update, so the first
   `min_samples` updates after a reset all sample.
   */
  lemma {:induction false} MandatorySamples(c: Config, p: Pair, ops: seq<Op>)
    requires NoStop(ops) && Updates(ops) <= p.sampling
    ensures Run(c, p, ops).sampling == p.sampling - Updates(ops)
    decreases |ops|
  {
    if ops != [] {
      MandatorySamples(c, Apply(c, p, ops[0]), ops[1..]);
    }
  }

  /** The bias in force at the last update of the run, `last` if there is none. */
  function LastBias(c: Config, p: Pair, ops: seq<Op>, last: int): int
    decreases |ops|
  {
    if ops == [] then last
    else LastBias(c, Apply(c, p, ops[0]), ops[1..], if ops[0].Update? then p.bias else last)
  }

  /** A pair that still samples has sampled at every update, and has left no random delay. */
  lemma {:induction false} DelayIsBias(c: Config, p: Pair, ops: seq<Op>)
    requires Samples(c, Run(c, p, ops))
    ensures Run(c, p, ops).delay == LastBias(c, p, ops, p.delay)
    decreases |ops|
  {
    if ops != [] {
      if !Samples(c, p) {
        SamplingFreezes(c, p, ops);
      }
      DelayIsBias(c, Apply(c, p, ops[0]), ops[1..]);
    }
  }

  /** The sum of the changes asked for before the last update. */
  function BiasAsked(ops: seq<Op>): int {
    if Updates(ops) == 0 then 0
    else (if ops[0].AddBias? then ops[0].change else 0) + BiasAsked(ops[1..])
  }

  lemma {:induction false} MandatoryDelay(c: Config, p: Pair, ops: seq<Op>)
    requires NoStop(ops) && Updates(ops) <= p.sampling
    ensures Run(c, p, ops).delay == if Updates(ops) == 0 then p.delay else p.bias + BiasAsked(ops)
    decreases |ops|
  {
    if ops != [] {
      MandatoryDelay(c, Apply(c, p, ops[0]), ops[1..]);
    }
  }

  /**
   While the pair samples, the delay is the bias alone: the next update leaves the bias, the
   delay since the reset is the bias at the last update, and over the mandatory samples that
   is the sum of the changes asked for before it.
   */
  lemma SamplingKeepsBias(c: Config, left: Pair, ops: seq<Op>, r: Reading)
    ensures var p := Run(c, Reset(c, left), ops);
      Samples(c, p) ==> Updated(c, p, r).delay == p.bias && Updated(c, p, r).bias == p.bias
    ensures var p := Run(c, Reset(c, left), ops); Samples(c, p) ==> p.delay == LastBias(c, Reset(c, left), ops, 0)
    ensures NoStop(ops) && Updates(ops) < c.minSamples ==> Samples(c, Run(c, Reset(c, left), ops))
    ensures NoStop(ops) && Updates(ops) <= c.minSamples ==> Run(c, Reset(c, left), ops).delay == BiasAsked(ops)
  {
    var p := Reset(c, left);
    if Samples(c, Run(c, p, ops)) {
      DelayIsBias(c, p, ops);
    }
    if NoStop(ops) && Updates(ops) <= c.minSamples {
      MandatorySamples(c, p, ops);
      MandatoryDelay(c, p, ops);
    }
  }

  // ----- Bounds -----

  lemma Scale(k: real, x: real, y: real)
    requires k >= 0.0 && x <= y
    ensures k * x <= k * y
  {
  }

  /** A moving average stays within any interval holding its past and its sample. */
  lemma MovingAvgBounds(alpha: real, sample: real, prev: real, lo: real, hi: real)
    requires 0.0 <= alpha <= 1.0 && lo <= sample <= hi && lo <= prev <= hi
    ensures lo <= MovingAvg(alpha, sample, prev) <= hi
  {
    Mix(alpha, sample - lo, prev - lo);
    Mix(alpha, hi - sample, hi - prev);
    assert MovingAvg(alpha, sample, prev) - lo == MovingAvg(alpha, sample - lo, prev - lo);
    assert hi - MovingAvg(alpha, sample, prev) == MovingAvg(alpha, hi - sample, hi - prev);
  }

  lemma Mix(alpha: real, x: real, y: real)
    requires 0.0 <= alpha <= 1.0 && 0.0 <= x && 0.0 <= y
    ensures MovingAvg(alpha, x, y) >= 0.0
  {
    Scale(alpha, 0.0, x);
    Scale(y, alpha, 1.0);
  }

  /** The durations are measured by a clock that does not run backwards. */
  predicate Forward(op: Op) {
    op.Update? ==> op.r.aStart <= op.r.aEnd && op.r.bStart <= op.r.bEnd && 0.0 <= op.r.random < 1.0
  }

  predicate AllForward(ops: seq<Op>) {
    forall i :: 0 <= i < |ops| ==> Forward(ops[i])
  }

  predicate DurationsWithin(p: Pair, bound: real) {
    && 0.0 <= p.sa.avg <= bound && 0.0 <= p.sb.avg <= bound
  }

  /** No duration sampled exceeds `bound`. */
  predicate Within(op: Op, bound: real) {
    op.Update? ==> (op.r.aEnd - op.r.aStart) as real <= bound && (op.r.bEnd - op.r.bStart) as real <= bound
  }

  lemma {:induction false} DurationsBounded(c: Config, p: Pair, ops: seq<Op>, bound: real)
    requires ValidConfig(c) && AllForward(ops) && DurationsWithin(p, bound)
    requires forall i :: 0 <= i < |ops| ==> Within(ops[i], bound)
    ensures DurationsWithin(Run(c, p, ops), bound)
    decreases |ops|
  {
    if ops != [] {
      assert Forward(ops[0]) && Within(ops[0], bound);
      if ops[0].Update? && Samples(c, p) {
        var r := ops[0].r;
        MovingAvgBounds(c.alpha, (r.aEnd - r.aStart) as real, p.sa.avg, 0.0, bound);
        MovingAvgBounds(c.alpha, (r.bEnd - r.bStart) as real, p.sb.avg, 0.0, bound);
      }
      DurationsBounded(c, Apply(c, p, ops[0]), ops[1..], bound);
    }
  }

  lemma TruncWithin(x: real, lo: real, hi: real)
    requires lo <= 0.0 <= hi && lo <= x <= hi
    ensures lo <= Trunc(x) as real <= hi
  {
  }

  lemma DivideLe(x: real, y: real, d: real)
    requires d > 0.0 && x <= y
    ensures x / d <= y / d
  {
  }

  /** A delay point within [-sb, sa] becomes a spin count within 1.1 times that range. */
  lemma SpinsWithin(time: real, sa: real, sb: real, perSpin: real)
    requires perSpin > 0.0 && sa >= 0.0 && sb >= 0.0 && -sb <= time <= sa
    ensures 11.0 * -sb / 10.0 / perSpin <= Spins(time, perSpin) as real <= 11.0 * sa / 10.0 / perSpin
  {
    DivideLe(11.0 * -sb / 10.0, 11.0 * time / 10.0, perSpin);
    DivideLe(11.0 * time / 10.0, 11.0 * sa / 10.0, perSpin);
    DivideLe(11.0 * -sb / 10.0, 0.0, perSpin);
    DivideLe(0.0, 11.0 * sa / 10.0, perSpin);
    TruncWithin(11.0 * time / 10.0 / perSpin, 11.0 * -sb / 10.0 / perSpin, 11.0 * sa / 10.0 / perSpin);
  }

  lemma TimeDelayWithin(random: real, sa: real, sb: real)
    requires 0.0 <= random < 1.0 && sa >= 0.0 && sb >= 0.0
    ensures -sb <= TimeDelay(random, sa, sb) <= sa
  {
    Scale(sa + sb, 0.0, random);
    Scale(sa + sb, random, 1.0);
  }

  /** Some bound on every duration a run samples. */
  lemma {:induction false} SomeBound(ops: seq<Op>) returns (bound: real)
    ensures bound >= 0.0
    ensures forall i :: 0 <= i < |ops| ==> Within(ops[i], bound)
  {
    bound := 0.0;
    for k := 0 to |ops|
      invariant bound >= 0.0
      invariant forall i :: 0 <= i < k ==> Within(ops[i], bound)
    {
      if ops[k].Update? {
        var a, b := (ops[k].r.aEnd - ops[k].r.aStart) as real, (ops[k].r.bEnd - ops[k].r.bStart) as real;
        bound := if a > bound then a else bound;
        bound := if b > bound then b else bound;
      }
    }
  }

  /**
   After any run since the reset in which the clock never ran backwards, an update
   that no longer samples adds to the bias a delay within 1.1 times [-sb, sa] per spin,
   or nothing when the end times are too close to tell how long a spin takes.
   */
  lemma DelayRange(c: Config, left: Pair, ops: seq<Op>, r: Reading)
    requires ValidConfig(c) && AllForward(ops) && 0.0 <= r.random < 1.0
    requires !Samples(c, Run(c, Reset(c, left), ops))
    ensures var p := Run(c, Reset(c, left), ops);
      var added := (Updated(c, p, r).delay - p.bias) as real;
      if Abs(p.ab.avg) >= 1.0 then
        var perSpin := PerSpinTime(p.ab.avg, p.spinsAvg.avg);
        11.0 * -p.sb.avg / 10.0 / perSpin <= added <= 11.0 * p.sa.avg / 10.0 / perSpin
      else added == 0.0
  {
    var p := Run(c, Reset(c, left), ops);
    var bound := SomeBound(ops);
    DurationsBounded(c, Reset(c, left), ops, bound);
    if Abs(p.ab.avg) >= 1.0 {
      TimeDelayWithin(r.random, p.sa.avg, p.sb.avg);
      SpinsWithin(TimeDelay(r.random, p.sa.avg, p.sb.avg), p.sa.avg, p.sb.avg, PerSpinTime(p.ab.avg, p.spinsAvg.avg));
    }
  }
}
