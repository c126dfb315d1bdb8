/**
 * The closed loop with unbounded accumulators: what the controller does to equal tasks
 * when nothing wraps.
 */
module WideLoop {
  import opened Constants
  import opened Charge
  import opened Jain
  import opened RunQueue
  import opened RoundRobin
  import opened ClosedLoop

  /** Jain's index over unbounded sums. */
  function WideIndex(xs: seq<nat>): Index {
    var den := |xs| * SumSquares(xs);
    if |xs| < 2 || Sum(xs) == 0 || den == 0 then Ratio(1.0)
    else Ratio((Sum(xs) * Sum(xs)) as real / den as real)
  }

  /** The wrapping index is this one as long as nothing wraps. */
  lemma WideIndexIsJainIndex(xs: seq<nat>)
    requires |xs| * SumSquares(xs) < TWO64
    ensures JainIndex(xs) == WideIndex(xs)
  {
    SumBelowSquares(xs);
    hide Sum;
    hide SumSquares;
    if |xs| >= 2 && Sum(xs) > 0 {
      IndexWithoutWrap(xs);
    }
  }

  /** The index a controller with unbounded sums would sample at tick t. */
  function WideSample(n: nat, t: nat): Index {
    WideIndex(Runtimes(Run(Apaf, EqualTasks(n), t).tasks))
  }

  /**
   * Its state after t ticks of n always-runnable nice-0 tasks. The runtimes do not depend on
   * the state: every controller charges nice-0 tasks the time they run.
   */
  function WideState(n: nat, t: nat): ApafState {
    if t == 0 then Medium
    else if t % 4 != 0 then WideState(n, t - 1)
    else NextState(WideState(n, t - 1), WideSample(n, t))
  }

  /** From the end of the third round on every sample is above 0.97. */
  lemma HighSample(n: nat, t: nat)
    requires n >= 1 && t >= 3 * n
    ensures WideSample(n, t).Ratio? && WideSample(n, t).j > 0.97
  {
    hide Run;
    hide EqualTasks;
    hide Runtimes;
    hide SumSquares;
    hide Sum;
    hide RoundsIndex;
    if n == 1 {
      OneTaskSamples(t);
    } else {
      var q, r := RoundsAtLeast3(n, t);
      var xs, t', d := RotationSamples(Apaf, n, q, r);
      ThreeRounds(q);
      PositiveProduct(t, t);
      IndexAtLeast(t, d, q, Sum(xs), n * SumSquares(xs));
    }
  }

  lemma OneTaskSamples(t: nat)
    ensures |Runtimes(Run(Apaf, EqualTasks(1), t).tasks)| < 2
  {
    hide Run;
    EqualTasksRotate(Apaf, 1, t);
  }

  lemma {:induction false} WideLevelRises(n: nat, t: nat)
    requires n >= 1 && t + 1 >= 3 * n
    ensures Looseness(WideState(n, t)) >= MonitorsSince(n, t) || WideState(n, t) == Loose
  {
    hide WideSample;
    if t < 3 * n {
    } else {
      WideLevelRises(n, t - 1);
      if t % 4 == 0 {
        HighSample(n, t);
      }
    }
  }

  /** Stabilisation for every number of tasks, without end. */
  lemma WideLoopSettles(n: nat, t: nat)
    requires n >= 1 && 3 * n + 7 <= t
    ensures WideState(n, t) == Loose
  {
    WideLevelRises(n, t);
    hide WideState;
    assert MonitorsSince(n, t) >= 2;
  }
}
