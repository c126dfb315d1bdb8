/**
 * Jain's fairness index (fairness.c) over the u64 accumulators of the source, and
 * the transition function of the APAF controller that reads it.
 */
module Jain {
  import opened Arithmetic
  import opened Constants
  import opened Charge

  /** A value of the double: a ratio of integers, or the 0/0 a wrapped denominator can give. */
  datatype Index = Ratio(j: real) | NotANumber

  function Sum(xs: seq<nat>): nat {
    if xs == [] then 0 else Sum(xs[..|xs| - 1]) + xs[|xs| - 1]
  }

  function SumSquares(xs: seq<nat>): nat {
    if xs == [] then 0 else SumSquares(xs[..|xs| - 1]) + xs[|xs| - 1] * xs[|xs| - 1]
  }

  /** The quotient of two non-negative doubles, clamped to at most 1. */
  function ClampedRatio(num: nat, den: nat): Index {
    if den == 0 then (if num == 0 then NotANumber else Ratio(1.0))
    else if num > den then Ratio(1.0)
    else Ratio(num as real / den as real)
  }

  /** fairness_jain_index over the exec_runtime of the runnable tasks. */
  function JainIndex(xs: seq<nat>): Index {
    var sum, sumSq := Sum(xs) % TWO64, SumSquares(xs) % TWO64;
    if |xs| < 2 then Ratio(1.0)
    else if sum == 0 || sumSq == 0 then Ratio(1.0)
    else ClampedRatio(sum * sum % TWO64, |xs| * sumSq % TWO64)
  }

  /** fairness_apaf_next_state. A comparison with NaN is false, so NaN changes nothing. */
  function NextState(state: ApafState, jain: Index): ApafState {
    if jain.NotANumber? then state
    else
      var j := if jain.j > 1.0 then 1.0 else if jain.j < 0.0 then 0.0 else jain.j;
      match state
      case Loose => if j < 0.93 then Medium else Loose
      case Medium => if j < 0.90 then Tight else if j > 0.97 then Loose else Medium
      case Tight => if j > 0.95 then Medium else Tight
  }

  /** The sum of deviations behind the Cauchy-Schwarz inequality. */
  lemma {:induction false} CauchyStep(xs: seq<nat>, y: nat)
    ensures 2 * y * Sum(xs) <= SumSquares(xs) + |xs| * (y * y)
  {
    if xs == [] {
    } else {
      var ys, x := xs[..|xs| - 1], xs[|xs| - 1];
      CauchyStep(ys, y);
      CauchyTerm(Sum(ys), SumSquares(ys), |ys|, x, y);
    }
  }

  lemma CauchyTerm(s: nat, q: nat, n: nat, x: nat, y: nat)
    requires 2 * y * s <= q + n * (y * y)
    ensures 2 * y * (s + x) <= q + x * x + (n + 1) * (y * y)
  {
    SquareNonneg(x - y);
    assert (x - y) * (x - y) == x * x - 2 * y * x + y * y;
    assert 2 * y * (s + x) == 2 * y * s + 2 * y * x;
    assert (n + 1) * (y * y) == n * (y * y) + y * y;
  }

  lemma SquareNonneg(a: int)
    ensures a * a >= 0
  {}

  /** Cauchy-Schwarz: without wrap-around the index never exceeds 1, so the clamp is unreachable. */
  lemma {:induction false} CauchySchwarz(xs: seq<nat>)
    ensures Sum(xs) * Sum(xs) <= |xs| * SumSquares(xs)
  {
    if xs == [] {
    } else {
      var ys, y := xs[..|xs| - 1], xs[|xs| - 1];
      CauchySchwarz(ys);
      CauchyStep(ys, y);
      SquareOfSum(Sum(ys), y, |ys|, SumSquares(ys));
    }
  }

  lemma SquareOfSum(s: nat, y: nat, n: nat, q: nat)
    requires s * s <= n * q && 2 * y * s <= q + n * (y * y)
    ensures (s + y) * (s + y) <= (n + 1) * (q + y * y)
  {
    assert (s + y) * (s + y) == s * s + 2 * y * s + y * y;
    assert (n + 1) * (q + y * y) == n * q + n * (y * y) + q + y * y;
  }

  lemma SumBelowSquares(xs: seq<nat>)
    ensures Sum(xs) <= SumSquares(xs)
    ensures Sum(xs) == 0 <==> SumSquares(xs) == 0
  {
    if xs != [] {
      var x := xs[|xs| - 1];
      SumBelowSquares(xs[..|xs| - 1]);
      if x > 0 {
        MulMono(1, x, x);
      }
    }
  }

  /**
   * As long as n times the sum of squares fits 64 bits, the computed index is Jain's:
   * the exact ratio, positive and at most 1.
   */
  lemma IndexWithoutWrap(xs: seq<nat>)
    requires |xs| >= 2 && Sum(xs) > 0 && |xs| * SumSquares(xs) < TWO64
    ensures |xs| * SumSquares(xs) > 0
    ensures JainIndex(xs) == Ratio((Sum(xs) * Sum(xs)) as real / (|xs| * SumSquares(xs)) as real)
    ensures 0.0 < JainIndex(xs).j <= 1.0
  {
    SumsFit(xs);
    hide Sum;
    hide SumSquares;
    ModSmall(Sum(xs), TWO64);
    ModSmall(SumSquares(xs), TWO64);
    ModSmall(Sum(xs) * Sum(xs), TWO64);
    ModSmall(|xs| * SumSquares(xs), TWO64);
    RatioAtMostOne(Sum(xs) * Sum(xs), |xs| * SumSquares(xs));
  }

  lemma SumsFit(xs: seq<nat>)
    requires |xs| >= 1 && Sum(xs) > 0 && |xs| * SumSquares(xs) < TWO64
    ensures 0 < Sum(xs) < TWO64 && 0 < SumSquares(xs) < TWO64
    ensures 0 < Sum(xs) * Sum(xs) <= |xs| * SumSquares(xs)
  {
    CauchySchwarz(xs);
    SumBelowSquares(xs);
    hide Sum;
    hide SumSquares;
    MulMono(1, |xs|, SumSquares(xs));
    MulMono(1, Sum(xs), Sum(xs));
  }

  lemma RatioAtMostOne(a: nat, b: nat)
    requires 0 < a <= b
    ensures 0.0 < a as real / b as real <= 1.0
  {}
}
