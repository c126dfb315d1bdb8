/**
 * The fixed-point reciprocals behind every vruntime charge: the exact quotient
 * of cfs_exact.c and the Newton iteration of approx_bsa.c.
 */
module NewtonReciprocal {
  import opened Arithmetic
  import opened Constants
  import opened Decay

  /** The exponent of the largest power of two at most w. */
  function FloorLog(w: nat): (k: nat)
    requires w > 0
    ensures Pow2(k) <= w < Pow2(k + 1)
  {
    if w < 2 then 0 else FloorLog(w / 2) + 1
  }

  /** bsa_nearest_pow2: the nearest power of two that fits u32, the smaller one on a tie. */
  function NearestPow2(w: nat): (p: nat)
    ensures p > 0
  {
    if w == 0 then 1
    else
      var floor := Pow2(FloorLog(w));
      if floor == w || floor >= TWO32 / 2 || w - floor <= 2 * floor - w then floor else 2 * floor
  }

  method BsaNearestPow2(weight: nat) returns (p: nat)
    requires weight < TWO32
    ensures p == NearestPow2(weight)
  {
    if weight == 0 {
      return 1;
    }
    var floor := 1;
    ghost var k := 0;
    while floor * 2 % TWO32 != 0 && floor * 2 % TWO32 <= weight
      invariant k <= 31 && floor == Pow2(k) <= weight
      decreases weight - floor
    {
      Pow2Small(k);
      floor := floor * 2;
      k := k + 1;
    }
    Pow2Small(k);
    FloorLogUnique(weight, k);
    if floor == weight {
      return weight;
    }
    if floor * 2 % TWO32 == 0 {
      return floor;
    }
    var ceil := floor * 2;
    var distFloor := weight - floor;
    var distCeil := ceil - weight;
    if distFloor <= distCeil {
      return floor;
    }
    return ceil;
  }

  lemma Pow2Mono(i: nat, j: nat)
    requires i <= j
    ensures Pow2(i) <= Pow2(j)
    decreases j - i
  {
    if i < j {
      Pow2Mono(i, j - 1);
    }
  }

  /** Which powers of two fit u32. */
  lemma Pow2Small(k: nat)
    ensures k <= 31 ==> Pow2(k) <= TWO32 / 2
    ensures k <= 30 ==> Pow2(k) <= TWO32 / 4
    ensures k >= 31 ==> Pow2(k) >= TWO32 / 2
    ensures k >= 32 ==> Pow2(k) >= TWO32
  {
    Pow2At32();
    assert Pow2(31) * 2 == Pow2(32) && Pow2(30) * 2 == Pow2(31);
    if k <= 31 { Pow2Mono(k, 31); }
    if k <= 30 { Pow2Mono(k, 30); }
    if k >= 31 { Pow2Mono(31, k); }
    if k >= 32 { Pow2Mono(32, k); }
  }

  lemma FloorLogUnique(w: nat, k: nat)
    requires w > 0 && Pow2(k) <= w < Pow2(k + 1)
    ensures FloorLog(w) == k
  {
    var l := FloorLog(w);
    if l < k {
      Pow2Mono(l + 1, k);
    } else if k < l {
      Pow2Mono(k + 1, l);
    }
  }

  /** p is at least as near to w as x, and nearer than a smaller x. */
  predicate Nearer(w: nat, p: nat, x: nat) {
    Abs(w - p) <= Abs(w - x) && (x < p ==> Abs(w - p) < Abs(w - x))
  }

  /** The result is a power of two that fits u32 and no other such power is nearer. */
  lemma NearestPow2IsNearest(w: nat)
    requires 0 < w < TWO32
    ensures exists k: nat :: k <= 31 && NearestPow2(w) == Pow2(k)
    ensures forall j: nat :: j <= 31 ==> Nearer(w, NearestPow2(w), Pow2(j))
  {
    var e := NearestPow2Exponent(w);
    forall j: nat | j <= 31
      ensures Nearer(w, NearestPow2(w), Pow2(j))
    {
      PowerOutside(w, j);
      Pow2Small(j);
      NearestPow2Is(w);
      hide *;
      NearerOf(w, Pow2(FloorLog(w)), NearestPow2(w), Pow2(j));
    }
  }

  lemma NearestPow2Is(w: nat)
    requires w > 0
    ensures var floor := Pow2(FloorLog(w));
            && floor <= w < 2 * floor
            && NearestPow2(w)
               == if floor == w || floor >= TWO32 / 2 || w - floor <= 2 * floor - w then floor else 2 * floor
  {}

  /** Every power of two that fits u32 is at most 2^k or at least twice that, for k = log2 w. */
  lemma PowerOutside(w: nat, j: nat)
    requires w > 0
    ensures Pow2(j) <= Pow2(FloorLog(w)) || Pow2(j) >= 2 * Pow2(FloorLog(w))
  {
    var k := FloorLog(w);
    if j <= k {
      Pow2Mono(j, k);
    } else {
      Pow2Mono(k + 1, j);
    }
  }

  lemma NearerOf(w: nat, floor: nat, p: nat, x: nat)
    requires floor <= w < 2 * floor && (x <= floor || x >= 2 * floor) && x <= TWO32 / 2
    requires p == (if floor == w || floor >= TWO32 / 2 || w - floor <= 2 * floor - w then floor else 2 * floor)
    ensures Nearer(w, p, x)
  {}

  /** The affine warm start 1.5 - 0.5m on the mantissa m = w / p2, over p2. */
  function Seed(w: nat): nat
    requires 0 < w < TWO32
  {
    MantissaBelow2(w);
    SeedFrom(w, NearestPow2(w))
  }

  function SeedFrom(w: nat, p2: nat): nat
    requires p2 > 0 && w * TWO32 / p2 < 2 * TWO32
  {
    var x: int := TWO32 / p2;
    var m: int := w * TWO32 / p2;
    var affine: int := 3 * (TWO32 / 2) - m / 2;
    QuotientNonneg(TWO32, p2);
    QuotientNonneg(x * affine, TWO32);
    x * affine / TWO32
  }

  lemma QuotientNonneg(a: nat, k: nat)
    requires k > 0
    ensures a / k >= 0
  {
    DivGe(a, k, 0);
  }

  /** x * (2 - w*x) in Q0.32; the loop stops where that would be negative. */
  function NewtonStep(w: nat, x: nat): nat {
    var wx := w * x % TWO64;
    if wx >= 2 * TWO32 then x else x * (2 * TWO32 - wx) / TWO32
  }

  function Newton(w: nat, iterations: nat): nat
    requires 0 < w < TWO32
  {
    if iterations == 0 then Seed(w) else NewtonStep(w, Newton(w, iterations - 1))
  }

  /** bsa_newton_reciprocal. */
  function Reciprocal(w: nat, iterations: nat): nat
    requires w < TWO32
  {
    if w == 0 then TWO32 else Newton(w, iterations)
  }

  method BsaNewtonReciprocal(weight: nat, iterations: nat) returns (x: nat)
    requires weight < TWO32
    ensures x == Reciprocal(weight, iterations)
  {
    hide NearestPow2;
    if weight == 0 {
      return TWO32;
    }
    var p2 := BsaNearestPow2(weight);
    MantissaBelow2(weight);
    var x0: int := TWO32 / p2;
    var m: int := weight * TWO32 / p2;
    var affine: int := 3 * (TWO32 / 2) - m / 2;
    QuotientNonneg(TWO32, p2);
    QuotientNonneg(x0 * affine, TWO32);
    x := x0 * affine / TWO32;
    assert x == Seed(weight);
    hide SeedFrom;
    hide Seed;
    var i := 0;
    while i < iterations
      invariant 0 <= i <= iterations
      invariant x == Newton(weight, i)
    {
      var wx := weight * x % TWO64;
      if wx >= 2 * TWO32 {
        NewtonStays(weight, i, iterations);
        break;
      }
      QuotientNonneg(x * (2 * TWO32 - wx), TWO32);
      x := x * (2 * TWO32 - wx) / TWO32;
      i := i + 1;
      assert x == NewtonStep(weight, Newton(weight, i - 1));
    }
  }

  /** Once the loop has stopped, further iterations would change nothing. */
  lemma NewtonStays(w: nat, i: nat, iterations: nat)
    requires 0 < w < TWO32 && i <= iterations && w * Newton(w, i) % TWO64 >= 2 * TWO32
    ensures Newton(w, iterations) == Newton(w, i)
    decreases iterations - i
  {
    if i < iterations {
      NewtonStays(w, i, iterations - 1);
    }
  }

  lemma Pow2Sum(i: nat, j: nat)
    ensures Pow2(i) * Pow2(j) == Pow2(i + j)
  {
    if i > 0 {
      Pow2Sum(i - 1, j);
    }
  }

  /** p2 divides 2^32, and the weight lies between 3/4 and 2 times p2. */
  lemma NearestPow2Facts(w: nat) returns (u: nat)
    requires 0 < w < TWO32
    ensures NearestPow2(w) * u == TWO32 && u == TWO32 / NearestPow2(w)
    ensures 3 * NearestPow2(w) <= 4 * w && w < 2 * NearestPow2(w)
  {
    hide NearestPow2;
    hide Pow2;
    NearestPow2Range(w);
    var k := NearestPow2Exponent(w);
    u := Pow2(32 - k);
    Pow2Sum(k, 32 - k);
    Pow2At32();
    DivUnique(TWO32, NearestPow2(w), u);
  }

  lemma NearestPow2Exponent(w: nat) returns (k: nat)
    requires 0 < w < TWO32
    ensures k <= 31 && NearestPow2(w) == Pow2(k)
  {
    k := FloorLog(w);
    Pow2Small(k);
    if NearestPow2(w) != Pow2(k) {
      k := k + 1;
    }
  }

  lemma NearestPow2Range(w: nat)
    requires 0 < w < TWO32
    ensures 3 * NearestPow2(w) <= 4 * w && w < 2 * NearestPow2(w)
  {
    Pow2Small(FloorLog(w));
  }

  lemma MantissaBelow2(w: nat)
    requires 0 < w < TWO32
    ensures w * TWO32 / NearestPow2(w) < 2 * TWO32
    ensures 0 <= w * TWO32 / NearestPow2(w)
  {
    hide NearestPow2;
    var p := NearestPow2(w);
    var u := NearestPow2Facts(w);
    MantissaValue(w, p, u);
  }

  lemma MantissaValue(w: nat, p: nat, u: nat)
    requires p * u == TWO32 && p > 0 && w < 2 * p
    ensures w * TWO32 / p == w * u < 2 * TWO32
  {
    assert w * TWO32 == (w * u) * p;
    DivUnique(w * TWO32, p, w * u);
    MulMono(w + 1, 2 * p, u);
    assert (2 * p) * u == 2 * TWO32;
    assert (w + 1) * u == w * u + u;
  }

  /** The deficit 1 - w*x in Q0.32. It may be negative before the first iteration. */
  function Deficit(w: nat, k: nat): int
    requires 0 < w < TWO32
  {
    TWO32 - w * Newton(w, k)
  }

  /** (w - p) * (w - 2p): over 2p^2 it is the deficit of the untruncated seed. */
  function Parabola(w: nat, p: nat): int {
    (w - p) * (w - 2 * p)
  }

  /** Truncation leaves the deficit of the seed within w of the parabola. */
  lemma SeedFollowsParabola(w: nat)
    requires 0 < w < TWO32
    ensures var p := NearestPow2(w);
            TWO32 * Parabola(w, p) - 2 * (p * p) <= 2 * ((p * p) * Deficit(w, 0))
            <= TWO32 * Parabola(w, p) + 2 * ((p * p) * w)
  {
    var p := NearestPow2(w);
    hide NearestPow2;
    var u := NearestPow2Facts(w);
    MantissaBelow2(w);
    MantissaValue(w, p, u);
    var a := 3 * (TWO32 / 2) - w * u / 2;
    var x := Seed(w);
    SeedScaled(u, a, p, x);
    SeedDeficitCore(w, p, u, a, x);
  }

  /** The seed is within 5/32 of the reciprocal from below and 1/8 from above. */
  lemma SeedDeficit(w: nat)
    requires 0 < w < TWO32
    ensures -(TWO32 / 8) - 1 <= Deficit(w, 0) <= 5 * (TWO32 / 32) + w
  {
    var p := NearestPow2(w);
    hide NearestPow2;
    var u := NearestPow2Facts(w);
    SeedFollowsParabola(w);
    SeedParabola(w, p);
    hide Deficit;
    CancelSquare(p * p, Deficit(w, 0), Parabola(w, p), w);
  }

  /** The seed is the affine factor over p, truncated. */
  lemma SeedScaled(u: nat, a: nat, p: nat, x: nat)
    requires p * u == TWO32 && x == u * a / TWO32
    ensures x * p <= a < x * p + p
  {
    DivBounds(u * a, TWO32);
    assert (x * p) * u == x * TWO32 && (x * p + p) * u == x * TWO32 + TWO32;
    MulMono(a + 1, x * p, u);
    MulMono(x * p + p, a, u);
  }

  lemma SeedParabola(w: nat, p: nat)
    requires 3 * p <= 4 * w && w <= 2 * p
    ensures 0 <= 4 * Parabola(w, p) + p * p
    ensures 16 * Parabola(w, p) <= 5 * (p * p)
  {
    ParabolaSquares(w, p);
    var d, s, m, c := 4 * w - 3 * p, 2 * w - 3 * p, Parabola(w, p), p * p;
    hide *;
    SignsOfSquares(d, s, 6 * p - d, m, c);
  }

  lemma SignsOfSquares(d: nat, s: int, r: nat, m: int, c: nat)
    requires s * s == 4 * m + c && d * r == 5 * c - 16 * m
    ensures 0 <= 4 * m + c && 16 * m <= 5 * c
  {
    MulMono(0, r, d);
    assert s * s >= 0;
  }

  /** The parabola by its minimum, and by the point 3p/4. */
  lemma ParabolaSquares(w: nat, p: nat)
    ensures (2 * w - 3 * p) * (2 * w - 3 * p) == 4 * Parabola(w, p) + p * p
    ensures (4 * w - 3 * p) * (6 * p - (4 * w - 3 * p)) == 5 * (p * p) - 16 * Parabola(w, p)
  {
    var a, b, c := w * w, w * p, p * p;
    assert Parabola(w, p) == a - 3 * b + 2 * c;
    assert (2 * w - 3 * p) * (2 * w - 3 * p) == 4 * a - 12 * b + 9 * c;
    assert (4 * w - 3 * p) * (9 * p - 4 * w) == 48 * b - 16 * a - 27 * c;
  }

  /** p times w times the affine factor, in terms of the parabola. */
  lemma SeedProduct(w: nat, p: nat, u: nat, b: int)
    requires p * u == TWO32
    ensures 2 * (p * p) * TWO32 - p * w * (3 * TWO32 - w * u + b)
         == TWO32 * ((w - p) * (w - 2 * p)) - p * w * b
  {
    assert p * w * (w * u) == (p * u) * (w * w);
    assert p * w * (3 * TWO32 - w * u + b) == 3 * TWO32 * (p * w) - p * w * (w * u) + p * w * b;
    assert (w - p) * (w - 2 * p) == w * w - 3 * (p * w) + 2 * (p * p);
  }

  lemma SeedDeficitCore(w: nat, p: nat, u: nat, a: nat, x: nat)
    requires p > 0 && p * u == TWO32 && w < 2 * p
    requires 3 * TWO32 - w * u <= 2 * a <= 3 * TWO32 - w * u + 1
    requires x * p <= a < x * p + p
    ensures TWO32 * Parabola(w, p) - 2 * (p * p) <= 2 * ((p * p) * (TWO32 - w * x))
    ensures 2 * ((p * p) * (TWO32 - w * x)) <= TWO32 * Parabola(w, p) + 2 * ((p * p) * w)
  {
    DeficitTimesSquare(w, p, x);
    SeedDeficitAbove(w, p, u, x * p);
    SeedDeficitBelow(w, p, u, x * p);
  }

  lemma DeficitTimesSquare(w: nat, p: nat, x: nat)
    ensures 2 * ((p * p) * (TWO32 - w * x)) == 2 * (p * p) * TWO32 - p * w * (2 * (x * p))
  {
    assert (p * p) * (w * x) == p * w * (x * p);
  }

  lemma SeedDeficitAbove(w: nat, p: nat, u: nat, xp: nat)
    requires p * u == TWO32 && 3 * TWO32 - w * u - 2 * p <= 2 * xp
    ensures 2 * (p * p) * TWO32 - p * w * (2 * xp) <= TWO32 * ((w - p) * (w - 2 * p)) + 2 * ((p * p) * w)
  {
    MulMono(3 * TWO32 - w * u - 2 * p, 2 * xp, p * w);
    SeedProduct(w, p, u, -2 * p);
    assert p * w * (-2 * p) == -2 * ((p * p) * w);
  }

  lemma SeedDeficitBelow(w: nat, p: nat, u: nat, xp: nat)
    requires p * u == TWO32 && 2 * xp <= 3 * TWO32 - w * u + 1 && w < 2 * p
    ensures TWO32 * ((w - p) * (w - 2 * p)) - 2 * (p * p) <= 2 * (p * p) * TWO32 - p * w * (2 * xp)
  {
    MulMono(2 * xp, 3 * TWO32 - w * u + 1, p * w);
    SeedProduct(w, p, u, 1);
    MulMono(w, 2 * p, p);
  }

  lemma CancelSquare(pp: nat, e: int, c: int, w: nat)
    requires pp > 0 && 0 <= 4 * c + pp && 16 * c <= 5 * pp
    requires 4294967296 * c - 2 * pp <= 2 * (pp * e) <= 4294967296 * c + 2 * (pp * w)
    ensures -536870912 - 1 <= e <= 671088640 + w
  {
    MulMono(671088640 + w + 1, e, pp);
    assert pp * (671088640 + w + 1) == 671088641 * pp + pp * w;
    MulMono(e, -536870912 - 2, pp);
    assert pp * (-536870912 - 2) == -536870914 * pp;
  }

  /** One Newton step, with the products written out: y is the next iterate. */
  lemma NewtonStepCore(w: nat, x: nat, y: nat)
    requires w * x < 2 * TWO32 && y == x * (2 * TWO32 - w * x) / TWO32
    ensures w * y <= TWO32
    ensures (TWO32 - w * x) * (TWO32 - w * x) <= (TWO32 - w * y) * TWO32
    ensures (TWO32 - w * y) * TWO32 <= (TWO32 - w * x) * (TWO32 - w * x) + w * (TWO32 - 1)
    ensures w * x <= TWO32 ==> x <= y
  {
    var z := x * (2 * TWO32 - w * x);
    DivBounds(z, TWO32);
    NewtonProduct(w, x);
    NewtonTruncated(w, y, z, TWO32 - w * x);
    MulMono(TWO32, 2 * TWO32 - w * x, x);
    DivGe(z, TWO32, x);
  }

  /** w times the step before its truncation: 1 minus the square of the deficit. */
  lemma NewtonProduct(w: nat, x: nat)
    ensures w * (x * (2 * TWO32 - w * x)) == TWO32 * TWO32 - (TWO32 - w * x) * (TWO32 - w * x)
  {
    var wx := w * x;
    assert w * (x * (2 * TWO32 - wx)) == wx * (2 * TWO32 - wx);
  }

  lemma NewtonTruncated(w: nat, y: nat, z: int, e: int)
    requires y * TWO32 <= z < y * TWO32 + TWO32 && w * z == TWO32 * TWO32 - e * e
    ensures w * y <= TWO32
    ensures e * e <= (TWO32 - w * y) * TWO32 <= e * e + w * (TWO32 - 1)
  {
    MulMono(y * TWO32, z, w);
    MulMono(z - (TWO32 - 1), y * TWO32, w);
    assert w * (y * TWO32) == (w * y) * TWO32;
    assert e * e >= 0;
  }

  /** Before every iteration the product is small enough for u64 and for the loop to go on. */
  lemma NewtonStepValue(w: nat, k: nat)
    requires 0 < w < TWO32 && Deficit(w, k) + TWO32 > 0
    ensures Newton(w, k + 1) == Newton(w, k) * (2 * TWO32 - w * Newton(w, k)) / TWO32
  {
    hide Seed;
  }

  /** The loop never stops early: every product w * x is below 2^33. */
  lemma {:induction false} NewtonNeverStops(w: nat, k: nat)
    requires 0 < w < TWO32
    ensures Deficit(w, k) + TWO32 > 0
    ensures k > 0 ==> Deficit(w, k) >= 0
  {
    hide Seed;
    if k == 0 {
      SeedDeficit(w);
    } else {
      NewtonNeverStops(w, k - 1);
      NewtonStepValue(w, k - 1);
      NewtonStepCore(w, Newton(w, k - 1), Newton(w, k));
    }
  }

  /**
   * For every u32 weight and every k >= 1: the iterate never exceeds the
   * reciprocal, never decreases with k, and its deficit shrinks quadratically up
   * to the truncation of one step.
   */
  lemma NewtonConverges(w: nat, k: nat)
    requires 0 < w < TWO32 && k >= 1
    ensures w * Newton(w, k) <= TWO32
    ensures Newton(w, k) <= Newton(w, k + 1)
    ensures Deficit(w, k) * Deficit(w, k)
            <= Deficit(w, k + 1) * TWO32
            <= Deficit(w, k) * Deficit(w, k) + w * (TWO32 - 1)
  {
    hide Newton;
    NewtonNeverStops(w, k);
    NewtonStepValue(w, k);
    NewtonStepCore(w, Newton(w, k), Newton(w, k + 1));
  }

  lemma NewtonMonotone(w: nat, j: nat, k: nat)
    requires 0 < w < TWO32 && 1 <= j <= k
    ensures Newton(w, j) <= Newton(w, k)
    decreases k - j
  {
    hide Newton;
    if j < k {
      NewtonMonotone(w, j, k - 1);
      NewtonConverges(w, k - 1);
    }
  }

  /** The first iteration squares the deficit of the seed, up to one truncation. */
  lemma FirstIteration(w: nat)
    requires 0 < w < TWO32
    ensures Deficit(w, 0) * Deficit(w, 0)
            <= Deficit(w, 1) * TWO32
            <= Deficit(w, 0) * Deficit(w, 0) + w * (TWO32 - 1)
  {
    hide Newton;
    NewtonNeverStops(w, 0);
    NewtonStepValue(w, 0);
    NewtonStepCore(w, Newton(w, 0), Newton(w, 1));
  }

  /** One iteration leaves at most (5/32)^2 of the reciprocal, plus rounding. */
  lemma OneIterationDeficit(w: nat)
    requires 0 < w < TWO32
    ensures 0 <= Deficit(w, 1) <= 25 * (TWO32 / 1024) + 3 * w
  {
    hide Newton;
    hide Seed;
    SeedDeficit(w);
    NewtonNeverStops(w, 1);
    FirstIteration(w);
    SquareOfDeficit(Deficit(w, 0), w);
    MulMono(25 * (TWO32 / 1024) + 3 * w + 1, Deficit(w, 1), TWO32);
  }

  lemma SquareOfDeficit(e: int, w: nat)
    requires w < 4294967296 && -536870913 <= e <= 671088640 + w
    ensures e * e + w * 4294967295 <= (25 * 4194304 + 3 * w) * 4294967296
  {
    var m := 671088640 + w;
    if e >= 0 {
      MulMono(e, m, e);
      MulMono(e, m, m);
    } else {
      MulMono(-e, m, -e);
      MulMono(-e, m, m);
      assert e * e == (-e) * (-e);
    }
    assert m * m == 671088640 * 671088640 + 2 * 671088640 * w + w * w;
    MulMono(w, 4294967296, w);
  }

  /** The reciprocal of a power of two is exact after any number of iterations. */
  lemma {:induction false} PowerOfTwoReciprocal(k: nat, iterations: nat)
    requires k <= 16
    ensures Pow2(k) < TWO32 && Newton(Pow2(k), iterations) == Pow2(32 - k)
  {
    var p, u := Pow2(k), Pow2(32 - k);
    Pow2Small(k);
    Pow2Sum(k, 32 - k);
    Pow2At32();
    hide Pow2;
    if iterations == 0 {
      PowerOfTwoSeed(k, p, u);
    } else {
      PowerOfTwoReciprocal(k, iterations - 1);
      NewtonNeverStops(p, iterations - 1);
      NewtonStepValue(p, iterations - 1);
      assert u * (2 * TWO32 - p * u) == u * TWO32;
      DivUnique(u * TWO32, TWO32, u);
    }
  }

  lemma PowerOfTwoSeed(k: nat, p: nat, u: nat)
    requires k <= 16 && p == Pow2(k) < TWO32 && p * u == TWO32
    ensures Newton(p, 0) == u
  {
    FloorLogUnique(p, k);
    assert NearestPow2(p) == p;
    hide NearestPow2;
    MantissaBelow2(p);
    DivUnique(p * TWO32, p, TWO32);
    DivUnique(TWO32, p, u);
    DivUnique(u * TWO32, TWO32, u);
  }
}
