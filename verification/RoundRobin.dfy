/**
 * Equal tasks: the schedule of n nice-0 tasks is round robin in every mode, which
 * gives Jain's index of every tick in closed form.
 */
module RoundRobin {
  import opened Arithmetic
  import opened Constants
  import opened Charge
  import opened Jain
  import opened RunQueue
  import opened Fairness

  /** n tasks of nice 0 as task_create and rq_init leave them. */
  function EqualTasks(n: nat): State {
    RqInit(seq(n, i requires 0 <= i < n => TaskCreate(i, 0)))
  }

  /** k ticks without blocking or waking. */
  function Run(mode: Mode, s: State, k: nat): State {
    if k == 0 then s else Tick(mode, Run(mode, s, k - 1))
  }

  /** Ticks that task i of n has run after t ticks of round robin. */
  function Turns(t: nat, n: nat, i: nat): (r: nat)
    requires n > 0
  {
    QuotientRemainder(t, n);
    t / n + if i < t % n then 1 else 0
  }

  lemma QuotientRemainder(t: nat, n: nat)
    requires n > 0
    ensures 0 <= t / n && 0 <= t % n < n && t == t / n * n + t % n
  {
    DivGe(t, n, 0);
  }

  /** The next tick is the turn of task t % n. */
  lemma TurnsStep(t: nat, n: nat, i: nat)
    requires n > 0 && i < n
    ensures Turns(t + 1, n, i) == Turns(t, n, i) + if i == t % n then 1 else 0
  {
    QuotientRemainder(t, n);
    if t % n + 1 < n {
      DivUnique(t + 1, n, t / n);
    } else {
      assert t + 1 == (t / n + 1) * n;
      DivUnique(t + 1, n, t / n + 1);
    }
    QuotientRemainder(t + 1, n);
  }

  /** A nice-0 task that has had its turns of round robin. */
  ghost predicate InTurn(task: Task, t: nat, n: nat, i: nat)
    requires n > 0
  {
    task.runnable && task.weight == 1024 && task.execRuntime == task.vruntime == Turns(t, n, i) * TICK_NS
  }

  ghost predicate InRotation(s: State, t: nat, n: nat)
    requires n > 0
  {
    |s.tasks| == n && s.tick == t && forall i: nat :: i < n ==> InTurn(s.tasks[i], t, n, i)
  }

  lemma RotationPicks(s: State, t: nat, n: nat)
    requires n > 0 && InRotation(s, t, n)
    ensures PickNext(s.tasks) == t % n
  {
    hide PickAmong;
    hide Turns;
    QuotientRemainder(t, n);
    var r, m := PickNext(s.tasks), t % n;
    assert Turns(t, n, m) == t / n && forall i: nat :: i < n ==> Turns(t, n, i) >= t / n by {
      TurnsFromQuotient(t, n);
    }
    assert forall i: nat :: i < m ==> Turns(t, n, i) == t / n + 1 by {
      TurnsFromQuotient(t, n);
    }
    assert InTurn(s.tasks[m], t, n, m);
    assert InTurn(s.tasks[r], t, n, r);
    assert forall i: nat :: i < m ==> InTurn(s.tasks[i], t, n, i);
  }

  lemma TurnsFromQuotient(t: nat, n: nat)
    requires n > 0
    ensures forall i: nat :: i < n ==> Turns(t, n, i) == t / n + if i < t % n then 1 else 0
  {}

  lemma NiceZeroCharge(mode: Mode, state: ApafState)
    ensures TickCharge(mode, state, 1024) == TICK_NS
  {}

  /** Round robin: in every mode, tick t + 1 runs task t mod n. */
  lemma {:induction false} EqualTasksRotate(mode: Mode, n: nat, t: nat)
    requires n > 0
    ensures InRotation(Run(mode, EqualTasks(n), t), t, n)
    ensures PickNext(Run(mode, EqualTasks(n), t).tasks) == t % n
  {
    hide Tick;
    hide InRotation;
    hide EqualTasks;
    hide PickNext;
    if t == 0 {
      RotationStarts(n);
    } else {
      EqualTasksRotate(mode, n, t - 1);
      RotationStep(mode, Run(mode, EqualTasks(n), t - 1), t - 1, n);
    }
    RotationPicks(Run(mode, EqualTasks(n), t), t, n);
  }

  lemma RotationStarts(n: nat)
    requires n > 0
    ensures InRotation(EqualTasks(n), 0, n)
  {
    assert forall i: nat :: i < n ==> Turns(0, n, i) == 0;
    assert forall i: nat :: i < n ==> InTurn(EqualTasks(n).tasks[i], 0, n, i);
  }

  lemma RotationStep(mode: Mode, s: State, t: nat, n: nat)
    requires n > 0 && InRotation(s, t, n)
    ensures InRotation(Tick(mode, s), t + 1, n)
  {
    TickAdvances(mode, s);
    hide Tick;
    hide Turns;
    hide InTurn;
    forall i: nat | i < n
      ensures InTurn(Tick(mode, s).tasks[i], t + 1, n, i)
    {
      TaskRotates(mode, s, t, n, i);
    }
  }

  lemma TickAdvances(mode: Mode, s: State)
    ensures |Tick(mode, s).tasks| == |s.tasks| && Tick(mode, s).tick == s.tick + 1
  {
    hide TickCharge;
    hide TickDecay;
  }

  lemma TaskRotates(mode: Mode, s: State, t: nat, n: nat, i: nat)
    requires i < n && InRotation(s, t, n)
    ensures |Tick(mode, s).tasks| == n && InTurn(Tick(mode, s).tasks[i], t + 1, n, i)
  {
    RotationPicks(s, t, n);
    TickEffect(mode, s, i);
    TurnsStep(t, n, i);
    NiceZeroCharge(mode, s.apafState);
    hide Tick;
    hide Turns;
    hide PickNext;
    hide TickCharge;
    assert InTurn(s.tasks[i], t, n, i);
  }

  /** The runtimes in round robin: the first r of k tasks are one turn ahead of q. */
  function Round(q: nat, r: nat, k: nat): seq<nat> {
    seq(k, i requires 0 <= i < k => (q + if i < r then 1 else 0) * TICK_NS)
  }

  lemma {:induction false} RuntimesOf(tasks: seq<Task>, q: nat, r: nat)
    requires forall i: nat :: i < |tasks| ==>
               tasks[i].runnable && tasks[i].execRuntime == (q + if i < r then 1 else 0) * TICK_NS
    ensures Runtimes(tasks) == Round(q, r, |tasks|)
  {
    if tasks == [] {
    } else {
      RuntimesOf(tasks[..|tasks| - 1], q, r);
    }
  }

  /** Sum and sum of squares of a round, in units of TICK_NS. */
  lemma {:induction false} RoundSums(q: nat, r: nat, k: nat)
    ensures Sum(Round(q, r, k)) == (k * q + Min(k, r)) * TICK_NS
    ensures SumSquares(Round(q, r, k)) == (k * (q * q) + Min(k, r) * (2 * q + 1)) * (TICK_NS * TICK_NS)
  {
    var xs := Round(q, r, k);
    if k == 0 {
    } else {
      RoundSums(q, r, k - 1);
      assert xs[..k - 1] == Round(q, r, k - 1);
      RoundSample(q, Min(k - 1, r), k, if k - 1 < r then 1 else 0);
    }
  }

  /** One more runtime of q + b turns in the two sums. */
  lemma RoundSample(q: nat, m: nat, k: nat, b: nat)
    requires k > 0 && b <= 1
    ensures ((k - 1) * q + m) * TICK_NS + (q + b) * TICK_NS == (k * q + (m + b)) * TICK_NS
    ensures ((k - 1) * (q * q) + m * (2 * q + 1)) * (TICK_NS * TICK_NS) + ((q + b) * TICK_NS) * ((q + b) * TICK_NS)
         == (k * (q * q) + (m + b) * (2 * q + 1)) * (TICK_NS * TICK_NS)
  {
    assert (q + b) * (q + b) == q * q + b * (2 * q + 1);
    SquareOfProduct(q + b);
    assert (k - 1) * q + q == k * q && (k - 1) * (q * q) + q * q == k * (q * q);
    assert (m + b) * (2 * q + 1) == m * (2 * q + 1) + b * (2 * q + 1);
  }

  /** n times the sum of squares is the square of the sum, plus r * (n - r). */
  lemma RoundSpread(q: nat, r: nat, n: nat)
    requires r <= n
    ensures n * (n * (q * q) + r * (2 * q + 1)) == (n * q + r) * (n * q + r) + r * (n - r)
  {
    assert (n * q + r) * (n * q + r) == (n * q) * (n * q) + 2 * (n * q * r) + r * r;
    assert n * (n * (q * q)) == (n * q) * (n * q);
    assert n * (r * (2 * q + 1)) == 2 * (n * q * r) + n * r;
    assert r * (n - r) == n * r - r * r;
  }

  /** The runtimes after n*q + r ticks, as the fairness index sees them. */
  lemma RotationIndex(s: State, n: nat, q: nat, r: nat)
    requires r < n && InRotation(s, n * q + r, n)
    ensures var t, xs := n * q + r, Runtimes(s.tasks);
            && xs == Round(q, r, n) && |xs| == n
            && Sum(xs) == t * TICK_NS
            && n * SumSquares(xs) == (t * t + r * (n - r)) * (TICK_NS * TICK_NS)
  {
    RotationRuntimes(s, n, q, r);
    hide Runtimes;
    hide InRotation;
    RoundSums(q, r, n);
    RoundSpread(q, r, n);
    Regroup(n, n * (q * q) + r * (2 * q + 1));
  }

  lemma Regroup(n: nat, a: nat)
    ensures n * (a * (TICK_NS * TICK_NS)) == (n * a) * (TICK_NS * TICK_NS)
  {}

  lemma RotationRuntimes(s: State, n: nat, q: nat, r: nat)
    requires r < n && InRotation(s, n * q + r, n)
    ensures Runtimes(s.tasks) == Round(q, r, n)
  {
    var t := n * q + r;
    DivUnique(t, n, q);
    QuotientRemainder(t, n);
    assert forall i: nat :: i < n ==> InTurn(s.tasks[i], t, n, i);
    RuntimesOf(s.tasks, q, r);
  }

  /** AM-GM: t^2 >= 4q(q+1) * r(n-r) for t = nq + r. */
  lemma SpreadBound(q: nat, r: nat, n: nat)
    requires r <= n
    ensures 4 * (q * (q + 1)) * (r * (n - r)) <= (n * q + r) * (n * q + r)
  {
    var a, b := q * (n - r), (q + 1) * r;
    assert n * q + r == a + b;
    assert a * b == (q * (q + 1)) * (r * (n - r));
    ArithmeticMean(a, b);
  }

  lemma ArithmeticMean(a: nat, b: nat)
    ensures 4 * (a * b) <= (a + b) * (a + b)
  {
    SquareNonneg(a - b);
    assert (a + b) * (a + b) == (a - b) * (a - b) + 4 * (a * b);
  }

  /** The guarantee after q full rounds: 4q(q+1) / (2q+1)^2. */
  function RoundsIndex(q: nat): real {
    PositiveProduct(2 * q + 1, 2 * q + 1);
    (4 * (q * (q + 1))) as real / ((2 * q + 1) * (2 * q + 1)) as real
  }

  lemma PositiveProduct(a: nat, b: nat)
    requires a > 0 && b > 0
    ensures a * b > 0
  {}

  /** n times the sum of squares of a round, t*t + d in ticks squared, fits the u64 of the source. */
  predicate IndexFits(t: nat, d: nat) {
    (t * t + d) * (TICK_NS * TICK_NS) < TWO64
  }

  /** What Jain's index is computed from after t = n*q + r ticks; d is r * (n - r). */
  lemma RotationSamples(mode: Mode, n: nat, q: nat, r: nat) returns (xs: seq<nat>, t: nat, d: nat)
    requires n >= 2 && r < n && q >= 1
    ensures t == n * q + r && d == r * (n - r) && t > 0
    ensures xs == Runtimes(Run(mode, EqualTasks(n), t).tasks) && |xs| == n
    ensures Sum(xs) == t * TICK_NS && n * SumSquares(xs) == (t * t + d) * (TICK_NS * TICK_NS)
    ensures 4 * (q * (q + 1)) * d <= t * t
  {
    hide Runtimes;
    hide Run;
    hide InRotation;
    hide Round;
    hide EqualTasks;
    t := n * q + r;
    d := r * (n - r);
    var s := Run(mode, EqualTasks(n), t);
    xs := Runtimes(s.tasks);
    EqualTasksRotate(mode, n, t);
    RotationIndex(s, n, q, r);
    SpreadBound(q, r, n);
    PositiveProduct(n, q);
  }

  /**
   * After q >= 1 full rounds and r turns of the next, Jain's index of n equal tasks is
   * at least 4q(q+1)/(2q+1)^2, and it is exactly 1 when no round is open. This holds as
   * long as the u64 accumulator of the index does not wrap.
   */
  lemma EqualTasksIndex(mode: Mode, n: nat, q: nat, r: nat)
    requires n >= 2 && r < n && q >= 1 && IndexFits(n * q + r, r * (n - r))
    ensures var jain := JainIndex(Runtimes(Run(mode, EqualTasks(n), n * q + r).tasks));
            && jain.Ratio?
            && RoundsIndex(q) <= jain.j <= 1.0
            && (r == 0 ==> jain.j == 1.0)
  {
    hide *;
    var xs, t, d := RotationSamples(mode, n, q, r);
    IndexOfRound(xs, t, d, q);
  }

  lemma IndexOfRound(xs: seq<nat>, t: nat, d: nat, q: nat)
    requires |xs| >= 2 && t > 0 && 4 * (q * (q + 1)) * d <= t * t && IndexFits(t, d)
    requires Sum(xs) == t * TICK_NS
    requires |xs| * SumSquares(xs) == (t * t + d) * (TICK_NS * TICK_NS)
    ensures var jain := JainIndex(xs);
            jain.Ratio? && RoundsIndex(q) <= jain.j <= 1.0 && (d == 0 ==> jain.j == 1.0)
  {
    hide JainIndex;
    hide RoundsIndex;
    hide Sum;
    hide SumSquares;
    IndexWithoutWrap(xs);
    IndexAtLeast(t, d, q, Sum(xs), |xs| * SumSquares(xs));
  }

  lemma IndexAtLeast(t: nat, d: nat, q: nat, sum: nat, den: nat)
    requires t > 0 && 4 * (q * (q + 1)) * d <= t * t
    requires sum == t * TICK_NS && den == (t * t + d) * (TICK_NS * TICK_NS) && den > 0
    ensures RoundsIndex(q) <= (sum * sum) as real / den as real
    ensures d == 0 ==> (sum * sum) as real / den as real == 1.0
  {
    hide RoundsIndex;
    RatioBound(t, d, q);
    SquareOfProduct(t);
    ScaledRatio(t * t, t * t + d, TICK_NS * TICK_NS);
  }

  lemma SquareOfProduct(t: nat)
    ensures (t * TICK_NS) * (t * TICK_NS) == (t * t) * (TICK_NS * TICK_NS)
  {}

  lemma ScaledRatio(a: nat, b: nat, k: nat)
    requires b > 0 && k > 0
    ensures b * k > 0 && (a * k) as real / (b * k) as real == a as real / b as real
  {
    assert (a * k) as real == a as real * k as real;
    assert (b * k) as real == b as real * k as real;
    assert (a as real / b as real) * (b as real * k as real) == a as real * k as real;
  }

  /** t^2 / (t^2 + d) >= 4q(q+1) / (2q+1)^2 when t^2 >= 4q(q+1) * d. */
  lemma RatioBound(t: nat, d: nat, q: nat)
    requires t > 0 && 4 * (q * (q + 1)) * d <= t * t
    ensures t * t + d > 0
    ensures RoundsIndex(q) <= (t * t) as real / (t * t + d) as real
    ensures d == 0 ==> (t * t) as real / (t * t + d) as real == 1.0
  {
    PositiveProduct(t, t);
    OddSquare(q);
    RatioCore(t * t, d, 4 * (q * (q + 1)));
  }

  lemma RatioCore(a: nat, d: nat, c: nat)
    requires a > 0 && c * d <= a
    ensures c as real / (c + 1) as real <= a as real / (a + d) as real
    ensures d == 0 ==> a as real / (a + d) as real == 1.0
  {
    CrossMultiply(a, d, c);
    CrossDivide(c, c + 1, a, a + d);
    if d == 0 {
      SelfRatio(a as real);
    }
  }

  lemma SelfRatio(a: real)
    requires a > 0.0
    ensures a / a == 1.0
  {}

  lemma OddSquare(q: nat)
    ensures (2 * q + 1) * (2 * q + 1) == 4 * (q * (q + 1)) + 1
  {}

  lemma CrossMultiply(a: nat, d: nat, c: nat)
    requires c * d <= a
    ensures c * (a + d) <= (c + 1) * a
  {}

  lemma CrossDivide(a: nat, b: nat, c: nat, d: nat)
    requires b > 0 && d > 0 && a * d <= b * c
    ensures a as real / b as real <= c as real / d as real
  {
    var x, y := a as real / b as real, c as real / d as real;
    assert x * b as real == a as real && y * d as real == c as real;
    assert (a * d) as real == a as real * d as real && (b * c) as real == b as real * c as real;
    assert x * (b as real * d as real) <= y * (b as real * d as real);
  }
}
