/**
 * What the controller does with its samples: where any sequence of low or high indices
 * leads, which samples keep a state, and the first decision of the closed loop.
 */
module Controller {
  import opened Constants
  import opened Charge
  import opened Jain
  import opened RunQueue
  import opened RoundRobin
  import opened ClosedLoop
  import opened Hysteresis

  /** After two samples below 0.90, from wherever, the budget is tight. */
  lemma {:induction false} LowSamplesTighten(s: ApafState, js: seq<real>)
    requires forall j :: j in js ==> j < 0.90
    ensures |js| >= 1 ==> StateAfter(s, js) != Loose
    ensures |js| >= 2 ==> StateAfter(s, js) == Tight
  {
    if js == [] {
    } else {
      var n := |js| - 1;
      assert js[n] in js && forall j :: j in js[..n] ==> j in js;
      LowSamplesTighten(s, js[..n]);
    }
  }

  /** After two samples above 0.97, from wherever, it is loose. */
  lemma {:induction false} HighSamplesLoosen(s: ApafState, js: seq<real>)
    requires forall j :: j in js ==> j > 0.97
    ensures |js| >= 1 ==> StateAfter(s, js) != Tight
    ensures |js| >= 2 ==> StateAfter(s, js) == Loose
  {
    if js == [] {
    } else {
      var n := |js| - 1;
      assert js[n] in js && forall j :: j in js[..n] ==> j in js;
      HighSamplesLoosen(s, js[..n]);
    }
  }

  /** The samples that a state tolerates. */
  predicate Tolerates(s: ApafState, j: real) {
    match s
    case Tight => j <= 0.95
    case Medium => 0.90 <= j <= 0.97
    case Loose => j >= 0.93
  }

  /** One sample leaves the state exactly when it is not tolerated, towards its side. */
  lemma SampleMoves(s: ApafState, j: real)
    ensures NextState(s, Ratio(j)) == s <==> Tolerates(s, j)
    ensures Looseness(NextState(s, Ratio(j))) > Looseness(s) ==> j > 0.95
    ensures Looseness(NextState(s, Ratio(j))) < Looseness(s) ==> j < 0.93
  {}

  /** A state is kept over every sequence of samples it tolerates, and left by the first that it does not. */
  lemma {:induction false} StateIsKept(s: ApafState, js: seq<real>)
    requires forall j :: j in js ==> Tolerates(s, j)
    ensures StateAfter(s, js) == s && Transitions(s, js) == 0
    ensures forall j: real :: StateAfter(s, js + [j]) == s <==> Tolerates(s, j)
  {
    if js == [] {
    } else {
      var n := |js| - 1;
      assert js[n] in js && forall j :: j in js[..n] ==> j in js;
      StateIsKept(s, js[..n]);
      assert js[..n] + [js[n]] == js;
    }
    forall j: real
      ensures StateAfter(s, js + [j]) == s <==> Tolerates(s, j)
    {
      assert (js + [j])[..|js|] == js;
      SampleMoves(s, j);
    }
  }

  /** At tick 4, n tasks have run 4 ticks in turn: J is 16 over 4n, or over 18 for three tasks, or 1. */
  lemma FirstIndex(n: nat)
    requires 1 <= n <= 4611686
    ensures LoopIndex(n, 4).Ratio?
    ensures n == 1 || n == 2 || n == 4 ==> LoopIndex(n, 4).j == 1.0
    ensures n == 3 || n >= 5 ==> LoopIndex(n, 4).j < 0.90
  {
    hide JainIndex;
    hide Runtimes;
    hide Run;
    hide EqualTasks;
    if n == 1 {
      OneTaskIndex(4);
    } else {
      var q, r, d := 4 / n, 4 % n, (4 % n) * (n - 4 % n);
      QuotientRemainder(4, n);
      var s := Run(Apaf, EqualTasks(n), 4);
      EqualTasksRotate(Apaf, n, 4);
      RotationIndex(s, n, q, r);
      FirstDeviation(n, q, r);
      hide InRotation;
      FirstRatio(Runtimes(s.tasks), n, d);
    }
  }

  lemma FirstDeviation(n: nat, q: nat, r: nat)
    requires n >= 2 && q == 4 / n && r == 4 % n
    ensures n * q + r == 4
    ensures n == 2 || n == 4 ==> r * (n - r) == 0
    ensures n == 3 ==> r * (n - r) == 2
    ensures n >= 5 ==> r * (n - r) == 4 * (n - 4)
  {}

  lemma FirstRatio(xs: seq<nat>, n: nat, d: nat)
    requires 2 <= n <= 4611686 && |xs| == n && Sum(xs) == 4 * TICK_NS
    requires n * SumSquares(xs) == (4 * 4 + d) * (TICK_NS * TICK_NS)
    requires d == if n == 2 || n == 4 then 0 else if n == 3 then 2 else 4 * (n - 4)
    ensures JainIndex(xs).Ratio?
    ensures if n == 2 || n == 4 then JainIndex(xs).j == 1.0 else JainIndex(xs).j < 0.90
  {
    hide Sum;
    hide SumSquares;
    hide JainIndex;
    assert n * SumSquares(xs) < TWO64;
    IndexWithoutWrap(xs);
    var den := n * SumSquares(xs);
    assert Sum(xs) * Sum(xs) == 16000000000000;
    if d > 0 {
      CrossDivide(16000000000000, den, 89, 100);
    }
  }

  /**
   * The first decision of the closed loop: up to tick 3 the controller is where rq_init left it, in
   * MEDIUM; at tick 4 it goes to LOOSE with 1, 2 or 4 equal tasks and to TIGHT with any other number.
   */
  lemma FirstDecision(n: nat, t: nat)
    requires 1 <= n <= 4611686 && t <= 4
    ensures LoopState(n, t) == if t < 4 then Medium else if n == 1 || n == 2 || n == 4 then Loose else Tight
  {
    hide LoopIndex;
    InitialState(n);
    hide LoopState;
    LoopStep(n, 0);
    LoopStep(n, 1);
    LoopStep(n, 2);
    LoopStep(n, 3);
    FirstIndex(n);
  }

  lemma InitialState(n: nat)
    ensures LoopState(n, 0) == Medium
  {}
}
