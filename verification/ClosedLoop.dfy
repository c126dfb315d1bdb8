/**
 * The APAF feedback loop closed over the schedule it observes: with equal tasks the
 * controller settles in LOOSE, for exactly as long as the u64 accumulators of the
 * fairness index last.
 */
module ClosedLoop {
  import opened Arithmetic
  import opened Constants
  import opened Charge
  import opened Jain
  import opened RunQueue
  import opened RoundRobin

  /** The controller's state after t ticks of n always-runnable nice-0 tasks. */
  function LoopState(n: nat, t: nat): ApafState {
    Run(Apaf, EqualTasks(n), t).apafState
  }

  /** The index the controller would sample at tick t. */
  function LoopIndex(n: nat, t: nat): Index {
    JainIndex(Runtimes(Run(Apaf, EqualTasks(n), t).tasks))
  }

  /** The controller moves only at multiples of four, on the index of that tick. */
  lemma LoopStep(n: nat, t: nat)
    requires n > 0
    ensures LoopState(n, t + 1) == if (t + 1) % 4 != 0 then LoopState(n, t)
                                   else NextState(LoopState(n, t), LoopIndex(n, t + 1))
  {
    hide EqualTasks;
    hide JainIndex;
    hide NextState;
    hide InRotation;
    hide LoadAll;
    hide ChargeTask;
    EqualTasksRotate(Apaf, n, t);
    QuotientRemainder(t, n);
    TickCount(n, t);
  }

  lemma TickCount(n: nat, t: nat)
    requires n > 0
    ensures Run(Apaf, EqualTasks(n), t).tick == t
  {
    hide Run;
    EqualTasksRotate(Apaf, n, t);
  }

  /** From the third full round on the guarantee is at least 48/49. */
  lemma ThreeRounds(q: nat)
    requires q >= 3
    ensures RoundsIndex(q) >= 48.0 / 49.0
  {
    OddSquare(q);
    MulMono(3, q, q + 1);
    CrossDivide(48, 49, 4 * (q * (q + 1)), (2 * q + 1) * (2 * q + 1));
  }

  /** The largest tick count whose square, in nanoseconds squared, fits 64 bits. */
  const LAST_SAFE_SQUARE: nat := 4294

  /** The wrapped denominator of a sample is below its numerator. */
  lemma PastWrap(n: nat, sq: nat, t: nat, d: nat)
    requires n >= 2 && 0 < t <= LAST_SAFE_SQUARE && 48 * d <= t * t
    requires n * sq == (t * t + d) * (TICK_NS * TICK_NS) && !IndexFits(t, d)
    ensures 0 < t * t * (TICK_NS * TICK_NS) < TWO64 && sq < TWO64
    ensures TWO64 <= n * sq < TWO64 + t * t * (TICK_NS * TICK_NS)
  {
    MulMono(t, LAST_SAFE_SQUARE, t);
    MulMono(t, LAST_SAFE_SQUARE, LAST_SAFE_SQUARE);
    PositiveProduct(t, t);
    assert t * t <= 4294 * 4294;
    MulMono(2, n, sq);
  }

  /** A product that wraps only makes the quotient larger, and the clamp turns it into 1. */
  lemma IndexPastWrap(xs: seq<nat>, t: nat, d: nat)
    requires |xs| >= 2 && 0 < t <= LAST_SAFE_SQUARE && 48 * d <= t * t
    requires Sum(xs) == t * TICK_NS
    requires |xs| * SumSquares(xs) == (t * t + d) * (TICK_NS * TICK_NS) && !IndexFits(t, d)
    ensures JainIndex(xs) == Ratio(1.0)
  {
    hide SumSquares;
    hide Sum;
    hide IndexFits;
    var n, sq, num := |xs|, SumSquares(xs), t * t * (TICK_NS * TICK_NS);
    PastWrap(n, sq, t, d);
    SquareOfProduct(t);
    ModSmall(t * TICK_NS, TWO64);
    ModSmall(sq, TWO64);
    ModSmall(num, TWO64);
    ModShift(n * sq - TWO64, 1, TWO64);
    ModSmall(n * sq - TWO64, TWO64);
    LargeRatio(num, n * sq % TWO64);
    hide ClampedRatio;
  }

  lemma LargeRatio(a: nat, b: nat)
    requires a > b
    ensures ClampedRatio(a, b) == Ratio(1.0)
  {}

  /** At every tick from the end of the third round to tick 4294 the index is above 0.97. */
  lemma HighIndex(n: nat, q: nat, r: nat)
    requires n >= 2 && r < n && q >= 3 && n * q + r <= LAST_SAFE_SQUARE
    ensures LoopIndex(n, n * q + r).Ratio? && LoopIndex(n, n * q + r).j > 0.97
  {
    hide JainIndex;
    hide Runtimes;
    hide Run;
    hide EqualTasks;
    hide RoundsIndex;
    hide IndexFits;
    var xs, t, d := RotationSamples(Apaf, n, q, r);
    ThreeRounds(q);
    if IndexFits(t, d) {
      IndexOfRound(xs, t, d, q);
    } else {
      MulMono(3, q, q + 1);
      MulMono(48, 4 * (q * (q + 1)), d);
      IndexPastWrap(xs, t, d);
    }
  }

  function Looseness(s: ApafState): nat {
    match s case Tight => 0 case Medium => 1 case Loose => 2
  }

  /** Multiples of four from 3n to t. */
  function MonitorsSince(n: nat, t: nat): int {
    t / 4 - (3 * n - 1) / 4
  }

  lemma RoundsAtLeast3(n: nat, t: nat) returns (q: nat, r: nat)
    requires n > 0 && t >= 3 * n
    ensures t == n * q + r && r < n && q >= 3
  {
    QuotientRemainder(t, n);
    DivGe(t, n, 3);
    q, r := t / n, t % n;
    assert n * q == q * n;
  }

  lemma HighIndexAt(n: nat, t: nat)
    requires n >= 1 && t >= 3 * n && (n == 1 || t <= LAST_SAFE_SQUARE)
    ensures LoopIndex(n, t).Ratio? && LoopIndex(n, t).j > 0.97
  {
    if n == 1 {
      OneTaskIndex(t);
    } else {
      hide LoopIndex;
      var q, r := RoundsAtLeast3(n, t);
      HighIndex(n, q, r);
    }
  }

  /** With a single runnable task the index is 1 by definition. */
  lemma OneTaskIndex(t: nat)
    ensures LoopIndex(1, t) == Ratio(1.0)
  {
    hide Run;
    EqualTasksRotate(Apaf, 1, t);
  }

  /** Each sample after three rounds raises the level, and LOOSE is never left. */
  lemma {:induction false} LevelRises(n: nat, t: nat)
    requires n >= 1 && t + 1 >= 3 * n && (n == 1 || t <= 4295)
    ensures Looseness(LoopState(n, t)) >= MonitorsSince(n, t) || LoopState(n, t) == Loose
  {
    hide LoopState;
    hide LoopIndex;
    if t >= 3 * n {
      LevelRises(n, t - 1);
      LoopStep(n, t - 1);
      if t % 4 == 0 {
        HighIndexAt(n, t);
      }
    }
  }

  /**
   * Closed-loop stabilisation: with n always-runnable nice-0 tasks the controller is in
   * LOOSE at every tick from 3n + 7 on, up to tick 4295.
   */
  lemma SettlesInLoose(n: nat, t: nat)
    requires n >= 1 && 3 * n + 7 <= t && (n == 1 || t <= 4295)
    ensures LoopState(n, t) == Loose
  {
    LevelRises(n, t);
    hide LoopState;
    assert MonitorsSince(n, t) >= 2;
  }

  /** At tick 4296 the square of the sum wraps past 2^64 and the sampled index collapses. */
  lemma WrappedIndex()
    ensures LoopIndex(300, 4296).Ratio? && LoopIndex(300, 4296).j < 0.93
  {
    hide Runtimes;
    hide Run;
    hide EqualTasks;
    var xs, t, d := RotationSamples(Apaf, 300, 14, 96);
    assert t == 4296 && d == 96 * 204;
    hide Sum;
    hide SumSquares;
    WrappedRatio(xs);
  }

  lemma WrappedRatio(xs: seq<nat>)
    requires |xs| == 300 && Sum(xs) == 4296 * TICK_NS
    requires 300 * SumSquares(xs) == (4296 * 4296 + 96 * 204) * (TICK_NS * TICK_NS)
    ensures JainIndex(xs).Ratio? && JainIndex(xs).j < 0.93
  {
    var sq := SumSquares(xs);
    hide SumSquares;
    hide Sum;
    assert sq == 61584 * (TICK_NS * TICK_NS);
    assert (4296 * TICK_NS) * (4296 * TICK_NS) % TWO64 == 8871926290448384;
    assert 300 * sq % TWO64 == 28455926290448384;
  }

  /** The controller leaves LOOSE on that sample; with unbounded accumulators it never would (WideLoop). */
  lemma LeavesLooseAt4296()
    ensures LoopState(300, 4295) == Loose && LoopState(300, 4296) == Medium
  {
    hide LoopState;
    hide LoopIndex;
    SettlesInLoose(300, 4295);
    LoopStep(300, 4295);
    WrappedIndex();
  }

  /** Every number of tasks has settled from its tick 3n + 7 up to the horizon. */
  ghost predicate StableUpTo(horizon: nat) {
    forall n: nat, t: nat :: n >= 1 && 3 * n + 7 <= t <= horizon ==> LoopState(n, t) == Loose
  }

  /** The stabilisation claim holds of every number of tasks exactly up to tick 4295. */
  lemma StabilisationHorizon(horizon: nat)
    ensures StableUpTo(horizon) <==> horizon <= 4295
  {
    hide LoopState;
    if horizon <= 4295 {
      forall n: nat, t: nat | n >= 1 && 3 * n + 7 <= t <= horizon
        ensures LoopState(n, t) == Loose
      {
        SettlesInLoose(n, t);
      }
    } else {
      LeavesLooseAt4296();
    }
  }

  lemma WrappedSquare(s: nat)
    ensures (s % TWO64) * (s % TWO64) % TWO64 == s * s % TWO64
  {
    ModMul(s % TWO64, s, TWO64);
    ModMul(s, s, TWO64);
    assert (s % TWO64) * s == s * (s % TWO64);
  }

  /** Equal runtimes: whatever wraps, wraps alike on both sides of the quotient. */
  lemma EqualRuntimesIndex(xs: seq<nat>)
    requires Sum(xs) * Sum(xs) == |xs| * SumSquares(xs)
    ensures JainIndex(xs) == Ratio(1.0) || JainIndex(xs) == NotANumber
  {
    hide Sum;
    hide SumSquares;
    WrappedSquare(Sum(xs));
    ModMul(|xs|, SumSquares(xs), TWO64);
    var s, q := Sum(xs) % TWO64, SumSquares(xs) % TWO64;
    EqualRatio(s * s % TWO64, |xs| * q % TWO64);
    hide ClampedRatio;
  }

  lemma EqualRatio(a: nat, b: nat)
    requires a == b
    ensures ClampedRatio(a, b) == Ratio(1.0) || ClampedRatio(a, b) == NotANumber
  {}

  /**
   * When the number of tasks divides the sampling interval every sample falls on a
   * completed round, so the controller never leaves LOOSE, whatever wraps.
   */
  lemma {:induction false} DivisorsOfFourStayLoose(n: nat, t: nat)
    requires n == 1 || n == 2 || n == 4
    requires t >= 3 * n + 7
    ensures LoopState(n, t) == Loose
  {
    hide LoopState;
    hide LoopIndex;
    if t <= 4295 {
      SettlesInLoose(n, t);
    } else {
      DivisorsOfFourStayLoose(n, t - 1);
      LoopStep(n, t - 1);
      if t % 4 == 0 {
        WholeRoundIndex(n, t / n, t);
      }
    }
  }

  lemma WholeRoundIndex(n: nat, q: nat, t: nat)
    requires n >= 1 && q >= 1 && t == n * q
    ensures LoopIndex(n, t) == Ratio(1.0) || LoopIndex(n, t) == NotANumber
  {
    hide JainIndex;
    hide Runtimes;
    hide Run;
    hide EqualTasks;
    if n == 1 {
      OneTaskIndex(t);
    } else {
      var xs, t', d := RotationSamples(Apaf, n, q, 0);
      SquareOfProduct(t);
      EqualRuntimesIndex(xs);
    }
  }
}
