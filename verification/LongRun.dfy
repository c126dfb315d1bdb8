/**
 * How long equal tasks keep the controller of the closed loop in LOOSE: for every number of
 * tasks an int can hold, for good or not.
 */
module LongRun {
  import opened Arithmetic
  import opened Constants
  import opened NewtonReciprocal
  import opened Charge
  import opened Jain
  import opened RunQueue
  import opened RoundRobin
  import opened ClosedLoop

 /** The index from the wrapped accumulators, for a numerator below the denominator. */
  lemma IndexOfWrapped(xs: seq<nat>, num: nat, den: nat)
    requires |xs| >= 2 && Sum(xs) % TWO64 != 0
    requires Sum(xs) * Sum(xs) % TWO64 == num && |xs| * SumSquares(xs) % TWO64 == den && num < den
    ensures JainIndex(xs) == Ratio(num as real / den as real)
  {
    hide Sum;
    hide SumSquares;
    WrappedSquare(Sum(xs));
    ModMul(|xs|, SumSquares(xs), TWO64);
    NoProduct(|xs|, SumSquares(xs) % TWO64);
  }

  lemma NoProduct(n: nat, x: nat)
    ensures x == 0 ==> n * x % TWO64 == 0
  {}

  /** 5^12 is a unit modulo 2^52, so a multiple of 2^64 by 10^12 is one of 2^52. */
  lemma UnitModulo(d: nat, k: nat)
    requires d * (TICK_NS * TICK_NS) == k * TWO64
    ensures d % 0x10_0000_0000_0000 == 0
  {
    var x := k * 810210403827377 - d * 43921594;
    assert d == x * 0x10_0000_0000_0000;
    ModShift(0, x, 0x10_0000_0000_0000);
  }

  lemma NoMultiple(d: nat)
    requires d % 0x10_0000_0000_0000 != 0
    ensures d * (TICK_NS * TICK_NS) % TWO64 != 0
  {
    var m := d * (TICK_NS * TICK_NS);
    DivBounds(m, TWO64);
    if m % TWO64 == 0 {
      UnitModulo(d, m / TWO64);
    }
  }

  /** An odd factor takes no part in a power of two. */
  lemma {:induction false} OddCofactor(x: nat, y: nat, m: nat, k: nat) returns (c: nat)
    requires x % 2 == 1 && x * y == m * Pow2(k)
    ensures y == c * Pow2(k)
    decreases k
  {
    if k == 0 {
      c := y;
    } else {
      TwoPowersOf(k);
      hide Pow2;
      assert m * (2 * Pow2(k - 1)) == 2 * (m * Pow2(k - 1));
      EvenFactor(x, y, m * Pow2(k - 1));
      var y' := y / 2;
      assert x * (2 * y') == 2 * (x * y');
      c := OddCofactor(x, y', m, k - 1);
      assert c * (2 * Pow2(k - 1)) == 2 * (c * Pow2(k - 1));
    }
  }

  lemma EvenFactor(x: nat, y: nat, z: nat)
    requires x % 2 == 1 && x * y == 2 * z
    ensures y % 2 == 0
  {
    if y % 2 == 1 {
      OddProduct(x / 2, y / 2);
    }
  }

  lemma OddProduct(a: nat, b: nat)
    ensures (2 * a + 1) * (2 * b + 1) == 2 * (2 * (a * b) + a + b) + 1
  {}

  /** A factor below 2^j leaves 2^(k + 1 - j) of a multiple of 2^k to the other. */
  lemma {:induction false} TwosOfFactor(x: nat, y: nat, m: nat, k: nat, j: nat) returns (c: nat)
    requires 0 < x < Pow2(j) && x * y == m * Pow2(k) && j <= k + 1
    ensures y == c * Pow2(k + 1 - j)
    decreases k
  {
    if x % 2 == 1 {
      var c' := OddCofactor(x, y, m, k);
      OnePower(j);
      Pow2Sum(k + 1 - j, j - 1);
      hide Pow2;
      c := c' * Pow2(j - 1);
      assert c' * (Pow2(k + 1 - j) * Pow2(j - 1)) == (c' * Pow2(j - 1)) * Pow2(k + 1 - j);
    } else {
      TwoPowers(j);
      TwoPowersOf(k);
      hide Pow2;
      HalfProduct(x / 2, y, m, Pow2(k - 1));
      c := TwosOfFactor(x / 2, y, m, k - 1, j - 1);
    }
  }

  lemma TwoPowersOf(k: nat)
    requires k >= 1
    ensures Pow2(k) == 2 * Pow2(k - 1)
  {}

  lemma HalfProduct(x: nat, y: nat, m: nat, p: nat)
    requires (2 * x) * y == m * (2 * p)
    ensures x * y == m * p
  {
    assert (2 * x) * y == 2 * (x * y) && m * (2 * p) == 2 * (m * p);
  }

  lemma OnePower(j: nat)
    requires Pow2(j) > 1
    ensures j >= 1
  {}

  lemma TwoPowers(j: nat)
    requires Pow2(j) > 2
    ensures j >= 2 && Pow2(j) == 2 * Pow2(j - 1)
  {}

  /** Two ints whose sum is no multiple of 2^22 have no product that is one of 2^52. */
  lemma ProductOfParts(x: nat, y: nat)
    requires 0 < x < 0x8000_0000 && 0 < y < 0x8000_0000 && (x + y) % 0x40_0000 != 0
    ensures x * y % 0x10_0000_0000_0000 != 0
  {
    var z := x * y;
    DivBounds(z, 0x10_0000_0000_0000);
    if z % 0x10_0000_0000_0000 == 0 {
      PartsOfMultiple(x, y, z / 0x10_0000_0000_0000);
    }
  }

  lemma PartsOfMultiple(x: nat, y: nat, m: int)
    requires 0 < x < 0x8000_0000 && 0 < y < 0x8000_0000 && x * y == m * 0x10_0000_0000_0000 && m >= 0
    ensures (x + y) % 0x40_0000 == 0
  {
    LargePowers();
    hide Pow2;
    var c := TwosOfFactor(x, y, m, 52, 31);
    assert y * x == x * y;
    var d := TwosOfFactor(y, x, m, 52, 31);
    SumOfMultiples(y, x, c, d);
  }

  lemma SumOfMultiples(x: nat, y: nat, c: nat, d: nat)
    requires x == c * 0x40_0000 && y == d * 0x40_0000
    ensures (x + y) % 0x40_0000 == 0
  {
    ModShift(0, c + d, 0x40_0000);
  }

  lemma LargePowers()
    ensures Pow2(22) == 0x40_0000 && Pow2(31) == 0x8000_0000 && Pow2(40) == 0x100_0000_0000
    ensures Pow2(52) == 0x10_0000_0000_0000
  {
    assert Pow2(11) == 2048 && Pow2(9) == 512;
    Pow2Sum(11, 11);
    Pow2Sum(22, 9);
    Pow2Sum(31, 9);
    assert Pow2(12) == 4096;
    Pow2Sum(40, 12);
  }

  /** At tick 2^40 the square of the sum is a multiple of 2^64: unless a round is completed the index is 0. */
  lemma IndexAt2To40(n: nat)
    requires 2 <= n < 0x8000_0000 && 0x100_0000_0000 % n != 0 && n % 0x40_0000 != 0
    ensures LoopIndex(n, 0x100_0000_0000) == Ratio(0.0)
  {
    hide JainIndex;
    hide Runtimes;
    hide Run;
    hide EqualTasks;
    QuotientRemainder(0x100_0000_0000, n);
    var q, r := 0x100_0000_0000 / n, 0x100_0000_0000 % n;
    DivGe(0x100_0000_0000, n, 1);
    var xs, t, d := RotationSamples(Apaf, n, q, r);
    assert t == 0x100_0000_0000 by { assert n * q == q * n; }
    ProductOfParts(r, n - r);
    hide *;
    IndexOfDeviation(xs, d);
  }

  lemma IndexOfDeviation(xs: seq<nat>, d: nat)
    requires |xs| >= 2 && d % 0x10_0000_0000_0000 != 0 && Sum(xs) == 0x100_0000_0000 * TICK_NS
    requires |xs| * SumSquares(xs) == (0x100_0000_0000 * 0x100_0000_0000 + d) * (TICK_NS * TICK_NS)
    ensures JainIndex(xs) == Ratio(0.0)
  {
    hide SumSquares;
    hide Sum;
    hide JainIndex;
    var m, k := d * (TICK_NS * TICK_NS), 65536000000000000;
    assert (0x100_0000_0000 * 0x100_0000_0000 + d) * (TICK_NS * TICK_NS) == m + k * TWO64;
    ModShift(m, k, TWO64);
    NoMultiple(d);
    ModShift(0, k, TWO64);
    assert (0x100_0000_0000 * TICK_NS) * (0x100_0000_0000 * TICK_NS) == k * TWO64;
    ModSmall(0x100_0000_0000 * TICK_NS, TWO64);
    IndexOfWrapped(xs, 0, m % TWO64);
  }

  /** The tick four into a round at which all that n contributes to the square of the sum has wrapped away. */
  function FourTurns(n: nat): nat {
    n * 0x2_0000_0000_0000 + 4
  }

  /** There the index is 16 * 10^12 over 4n * 10^12 modulo 2^64. */
  lemma IndexAtFourTurns(n: nat, den: nat)
    requires n >= 5 && den == 4 * n * (TICK_NS * TICK_NS) % TWO64 && den > 18000000000000
    ensures LoopIndex(n, FourTurns(n)).Ratio? && LoopIndex(n, FourTurns(n)).j < 0.93
  {
    hide JainIndex;
    hide Runtimes;
    hide Run;
    hide EqualTasks;
    var xs, t, d := RotationSamples(Apaf, n, 0x2_0000_0000_0000, 4);
    assert t == FourTurns(n) && d == 4 * (n - 4);
    hide *;
    IndexOfFour(xs, n, t, den);
  }

  lemma IndexOfFour(xs: seq<nat>, n: nat, t: nat, den: nat)
    requires n >= 5 && |xs| == n && t == n * 0x2_0000_0000_0000 + 4 && Sum(xs) == t * TICK_NS
    requires n * SumSquares(xs) == (t * t + 4 * (n - 4)) * (TICK_NS * TICK_NS)
    requires den == 4 * n * (TICK_NS * TICK_NS) % TWO64 && den > 18000000000000
    ensures JainIndex(xs).Ratio? && JainIndex(xs).j < 0.93
  {
    hide SumSquares;
    hide Sum;
    hide JainIndex;
    var k := n * (n * 0x4000_0000_0000 + 1);
    FourSquared(n, t, k);
    FourProducts(t, n, k);
    ModShift(4 * n * (TICK_NS * TICK_NS), 244140625 * k, TWO64);
    ModShift(16000000000000, 244140625 * k, TWO64);
    ModSmall(16000000000000, TWO64);
    SumIsOpen(n, t);
    IndexOfWrapped(xs, 16000000000000, den);
    BelowNinety(16000000000000, den);
  }

  lemma FourSquared(n: nat, t: nat, k: nat)
    requires t == n * 0x2_0000_0000_0000 + 4 && k == n * (n * 0x4000_0000_0000 + 1)
    ensures t * t == k * 0x10_0000_0000_0000 + 16
  {
    var p := 0x2_0000_0000_0000;
    assert t * t == (n * p) * (n * p) + 8 * (n * p) + 16;
    assert (n * p) * (n * p) == (n * n) * (p * p);
    assert k == (n * n) * 0x4000_0000_0000 + n;
  }

  lemma FourProducts(t: nat, n: nat, k: nat)
    requires t * t == k * 0x10_0000_0000_0000 + 16 && n >= 4
    ensures (t * TICK_NS) * (t * TICK_NS) == 16000000000000 + (244140625 * k) * TWO64
    ensures (t * t + 4 * (n - 4)) * (TICK_NS * TICK_NS) == 4 * n * (TICK_NS * TICK_NS) + (244140625 * k) * TWO64
  {
    SquareOfProduct(t);
  }

  lemma SumIsOpen(n: nat, t: nat)
    requires t == n * 0x2_0000_0000_0000 + 4
    ensures t * TICK_NS % TWO64 != 0
  {
    var s, rest, k := t * TICK_NS, t * TICK_NS % TWO64, t * TICK_NS / TWO64;
    assert s == rest + (512 * k) * 0x80_0000_0000_0000;
    assert s == 4000000 + (n * 15625) * 0x80_0000_0000_0000;
    ModShift(rest, 512 * k, 0x80_0000_0000_0000);
    ModShift(4000000, n * 15625, 0x80_0000_0000_0000);
  }

  lemma BelowNinety(num: nat, den: nat)
    requires den > 0 && 9 * den > 10 * num
    ensures num as real / den as real < 0.93
  {
    CrossDivide(num, den, 9, 10);
  }

  /** Up to 4.6 million tasks that denominator does not wrap. */
  lemma DenominatorOfFew(n: nat)
    requires 5 <= n <= 4611686
    ensures 4 * n * (TICK_NS * TICK_NS) % TWO64 > 18000000000000
  {
    ModSmall(4 * n * (TICK_NS * TICK_NS), TWO64);
  }

  /** For a multiple of 2^22 it is one of 2^36, and never a small one. */
  lemma DenominatorOfMultiple(n: nat)
    requires 0 < n < 0x8000_0000 && n % 0x40_0000 == 0
    ensures 4 * n * (TICK_NS * TICK_NS) % TWO64 > 18000000000000
  {
    var c := n / 0x40_0000;
    assert n == c * 0x40_0000;
    var k, rest := 244140625 * c / 0x1000_0000, 244140625 * c % 0x1000_0000;
    assert 4 * n * (TICK_NS * TICK_NS) == rest * 0x10_0000_0000 + k * TWO64;
    ModShift(rest * 0x10_0000_0000, k, TWO64);
    ModSmall(rest * 0x10_0000_0000, TWO64);
    SmallRest(c, c - k, rest);
  }

  lemma SmallRest(c: nat, k: nat, rest: nat)
    requires 0 < c < 512 && 24294831 * c + rest == k * 0x1000_0000
    ensures rest >= 262
  {}

  /** A divisor of a power of two is a power of two. */
  lemma {:induction false} DivisorOfPower(n: nat, m: nat, j: nat) returns (k: nat)
    requires n * m == Pow2(j)
    ensures n == Pow2(k) && k <= j
    decreases j
  {
    if n == 1 {
      k := 0;
    } else if n % 2 == 0 {
      var n' := n / 2;
      assert n == 2 * n';
      assert (2 * n') * m == 2 * (n' * m);
      NotTheUnit(j, n' * m);
      k := DivisorOfPower(n', m, j - 1);
      k := k + 1;
    } else {
      var m' := EvenCofactor(n, m, j);
      k := DivisorOfPower(n, m', j - 1);
    }
  }

  lemma NotTheUnit(j: nat, x: nat)
    requires Pow2(j) == 2 * x
    ensures j > 0 && Pow2(j - 1) == x
  {}

  lemma EvenCofactor(n: nat, m: nat, j: nat) returns (m': nat)
    requires n % 2 == 1 && n != 1 && n * m == Pow2(j)
    ensures j > 0 && n * m' == Pow2(j - 1)
  {
    if j == 0 {
      assert n * m == 1;
      if m >= 1 { MulMono(1, m, n); }
      assert false;
    }
    m' := m / 2;
    if m % 2 == 1 {
      OddProduct(n / 2, m / 2);
    }
    assert m == 2 * m';
    assert n * (2 * m') == 2 * (n * m');
  }

  /** In LOOSE from tick 3n + 7 on, for good. */
  ghost predicate StaysLoose(n: nat) {
    forall t: nat :: 3 * n + 7 <= t ==> LoopState(n, t) == Loose
  }

  /** A sample below 0.93 ends it. */
  lemma LowSampleLeaves(n: nat, t: nat)
    requires n >= 1 && t % 4 == 0 && 3 * n + 7 <= t && LoopIndex(n, t).Ratio? && LoopIndex(n, t).j < 0.93
    ensures LoopState(n, t - 1) == Loose ==> LoopState(n, t) == Medium
    ensures 3 * n + 7 < t ==> !StaysLoose(n)
  {
    hide LoopState;
    hide LoopIndex;
    LoopStep(n, t - 1);
    if 3 * n + 7 < t && LoopState(n, t - 1) == Loose {
      assert LoopState(n, t) == Medium;
    }
  }

  /**
   * Of all numbers of tasks an int can hold, exactly 1, 2 and 4 equal tasks keep the
   * controller in LOOSE for good: those whose rounds are completed at every sample.
   */
  lemma StaysLooseIff(n: nat)
    requires 1 <= n < 0x8000_0000
    ensures StaysLoose(n) <==> n == 1 || n == 2 || n == 4
  {
    hide LoopState;
    hide LoopIndex;
    if n == 1 || n == 2 || n == 4 {
      forall t: nat | 3 * n + 7 <= t
        ensures LoopState(n, t) == Loose
      {
        DivisorsOfFourStayLoose(n, t);
      }
    } else if n == 3 || (n > 4611686 && n % 0x40_0000 != 0) {
      if n > 3 {
        NoRoundAt2To40(n);
      }
      IndexAt2To40(n);
      LowSampleLeaves(n, 0x100_0000_0000);
    } else {
      if n > 4611686 {
        DenominatorOfMultiple(n);
      } else {
        DenominatorOfFew(n);
      }
      LeavesAtFourTurns(n, 4 * n * (TICK_NS * TICK_NS) % TWO64);
    }
  }

  lemma LeavesAtFourTurns(n: nat, den: nat)
    requires n >= 5 && den == 4 * n * (TICK_NS * TICK_NS) % TWO64 && den > 18000000000000
    ensures !StaysLoose(n)
  {
    FourTurnsIsSampled(n);
    hide *;
    IndexAtFourTurns(n, den);
    LowSampleLeaves(n, FourTurns(n));
  }

  lemma FourTurnsIsSampled(n: nat)
    requires n > 0
    ensures FourTurns(n) % 4 == 0 && 3 * n + 7 < FourTurns(n)
  {
    ModShift(0, n * 0x8000_0000_0000 + 1, 4);
  }

  /** A divisor of 2^40 above 2^22 is a multiple of 2^22. */
  lemma NoRoundAt2To40(n: nat)
    requires n > 4611686 && n % 0x40_0000 != 0
    ensures 0x100_0000_0000 % n != 0
  {
    if 0x100_0000_0000 % n == 0 {
      var m := 0x100_0000_0000 / n;
      DivBounds(0x100_0000_0000, n);
      assert n * m == m * n;
      LargePowers();
      var k := DivisorOfPower(n, m, 40);
      if k < 22 {
        Pow2Mono(k, 22);
      } else {
        MultipleOf2To22(k);
      }
    }
  }

  lemma MultipleOf2To22(k: nat)
    requires k >= 22
    ensures Pow2(k) % 0x40_0000 == 0
  {
    LargePowers();
    Pow2Sum(22, k - 22);
    ModShift(0, Pow2(k - 22), 0x40_0000);
  }

  /**
   * What wrapping makes of two perfectly fair tasks: at tick 2^26 the index is 0/0, and one doubling
   * later the sum of squares has wrapped to zero, which counts as perfect fairness.
   */
  lemma TwoTasksWrapped()
    ensures LoopIndex(2, 0x400_0000) == NotANumber && LoopIndex(2, 0x800_0000) == Ratio(1.0)
  {
    hide JainIndex;
    hide Runtimes;
    hide Run;
    hide EqualTasks;
    var xs, t, d := RotationSamples(Apaf, 2, 0x200_0000, 0);
    assert t == 0x400_0000 && d == 0;
    ZeroOverZero(xs);
    var ys, u, e := RotationSamples(Apaf, 2, 0x400_0000, 0);
    assert u == 0x800_0000 && e == 0;
    NoSquaresLeft(ys);
  }

  lemma ZeroOverZero(xs: seq<nat>)
    requires |xs| == 2 && Sum(xs) == 0x400_0000 * TICK_NS
    requires 2 * SumSquares(xs) == (0x400_0000 * 0x400_0000 + 0) * (TICK_NS * TICK_NS)
    ensures JainIndex(xs) == NotANumber
  {
    hide Sum;
    hide SumSquares;
    assert SumSquares(xs) == 244140624 / 2 * TWO64 + TWO64 / 2;
    ModShift(TWO64 / 2, 244140624 / 2, TWO64);
    assert Sum(xs) % TWO64 == 67108864000000;
    assert 67108864000000 * 67108864000000 == 244140625 * TWO64;
    ModShift(0, 244140625, TWO64);
  }

  lemma NoSquaresLeft(xs: seq<nat>)
    requires |xs| == 2 && Sum(xs) == 0x800_0000 * TICK_NS
    requires 2 * SumSquares(xs) == (0x800_0000 * 0x800_0000 + 0) * (TICK_NS * TICK_NS)
    ensures JainIndex(xs) == Ratio(1.0)
  {
    hide Sum;
    hide SumSquares;
    assert SumSquares(xs) == 488281250 * TWO64;
    ModShift(0, 488281250, TWO64);
  }
}
