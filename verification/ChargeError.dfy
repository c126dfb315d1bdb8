/**
 * The documented error bounds of the approximate vruntime charges against what the
 * code charges: exact conditions on the weight, and what they say of the nice levels.
 */
module ChargeError {
  import opened Arithmetic
  import opened Constants
  import opened Decay
  import opened NewtonReciprocal
  import opened Charge

  /** The documented 1.911% error bound of bsa_newton_reciprocal after one iteration. */
  predicate WithinDocumentedBound(w: nat)
    requires 0 < w < TWO32
  {
    100000 * Deficit(w, 1) <= 1911 * TWO32
  }

  /**
   * Where the weight lies above the power of two it is compared with: at least 0.77441 times
   * p, the root of the parabola of the seed at sqrt(0.01911), and a little more for large p.
   */
  predicate AboveThreshold(w: nat, p: nat) {
    1250000000 * w >= p * (968007500 + p)
  }

  /**
   * The documented bound holds of a weight if and only if the weight is not too far
   * below its nearest power of two. The weights of all nice levels are in this range.
   */
  lemma DocumentedBsaBound(w: nat)
    requires 0 < w < 98304
    ensures WithinDocumentedBound(w) <==> AboveThreshold(w, NearestPow2(w))
  {
    var p := NearestPow2(w);
    hide WithinDocumentedBound;
    var k := NearestPow2Below2To17(w);
    if 10000 * w <= 7744 * p {
      FarBelowPowerFails(w);
      BelowThreshold(w, p);
    } else if 10000 * w >= 7745 * p {
      NearPowerHolds(w);
      ReachesThreshold(w, p);
    } else {
      NearThreshold(w, k);
    }
  }

  lemma BelowThreshold(w: nat, p: nat)
    requires p > 0 && 10000 * w <= 7744 * p
    ensures !AboveThreshold(w, p)
  {
    MulMono(968007500, 968007500 + p, p);
  }

  lemma ReachesThreshold(w: nat, p: nat)
    requires p <= 65536 && 10000 * w >= 7745 * p
    ensures AboveThreshold(w, p)
  {
    MulMono(968007500 + p, 968125000, p);
  }

  lemma PowersOfTwo()
    ensures Pow2(0) == 1 && Pow2(1) == 2 && Pow2(2) == 4 && Pow2(3) == 8 && Pow2(4) == 16 && Pow2(5) == 32
    ensures Pow2(6) == 64 && Pow2(7) == 128 && Pow2(8) == 256 && Pow2(9) == 512 && Pow2(10) == 1024
    ensures Pow2(11) == 2048 && Pow2(12) == 4096 && Pow2(13) == 8192 && Pow2(14) == 16384 && Pow2(15) == 32768
    ensures Pow2(16) == 65536 && Pow2(17) == 131072
  {}

  lemma NearestPow2Below2To17(w: nat) returns (k: nat)
    requires 0 < w < 98304
    ensures k <= 16 && NearestPow2(w) == Pow2(k) <= 65536
    ensures 3 * NearestPow2(w) <= 4 * w && 2 * w <= 3 * NearestPow2(w)
  {
    k := NearestPow2Exponent(w);
    PowersOfTwo();
    NearestPow2Range(w);
    if k > 16 {
      Pow2Mono(17, k);
    } else {
      Pow2Mono(k, 16);
    }
  }

  function Span(n: nat): nat
    requires n <= 10000
  {
    (10000 - n) * (20000 - n)
  }

  /**
   * The seed of a weight of at least n/10000 of p leaves a deficit of at most half of
   * (1 - n/10000) * (2 - n/10000), up to the weight.
   */
  lemma SeedDeficitAtMost(w: nat, n: nat)
    requires 0 < w < TWO32 && n <= 10000
    requires n * NearestPow2(w) <= 10000 * w && 2 * w <= 3 * NearestPow2(w)
    ensures 200000000 * (Deficit(w, 0) - w) <= Span(n) * TWO32
  {
    var p := NearestPow2(w);
    hide NearestPow2;
    var u := NearestPow2Facts(w);
    SeedFollowsParabola(w);
    hide *;
    ParabolaAround(w, p, n);
    ScaleDeficitUp(p * p, Deficit(w, 0), Parabola(w, p), w, Span(n));
  }

  /** And of a weight at most n/10000 of p, at least as much, up to one unit. */
  lemma SeedDeficitAtLeast(w: nat, n: nat)
    requires 0 < w < TWO32 && n <= 10000
    requires 10000 * w <= n * NearestPow2(w)
    ensures Span(n) * TWO32 <= 200000000 * (Deficit(w, 0) + 1)
  {
    var p := NearestPow2(w);
    hide NearestPow2;
    SeedFollowsParabola(w);
    hide Deficit;
    hide *;
    MulMono(n, 10000, p);
    ParabolaAround(w, p, n);
    ScaleDeficitDown(p * p, Deficit(w, 0), Parabola(w, p), Span(n));
  }

  /** The parabola falls until 1.5p, so a bound on w is a bound on its value. */
  lemma ParabolaAround(w: nat, p: nat, n: nat)
    requires n <= 10000 && 2 * w <= 3 * p
    ensures n * p <= 10000 * w ==> 100000000 * Parabola(w, p) <= Span(n) * (p * p)
    ensures 10000 * w <= n * p ==> 100000000 * Parabola(w, p) >= Span(n) * (p * p)
  {
    var d, s := 10000 * w - n * p, (30000 - n) * p - 10000 * w;
    ParabolaDifference(w, p, n);
    if d >= 0 {
      MulMono(0, s, d);
    } else {
      MulMono(0, s, -d);
      assert (-d) * s == -(d * s);
    }
  }

  lemma ParabolaDifference(w: nat, p: nat, n: nat)
    requires n <= 10000
    ensures (10000 * w - n * p) * ((30000 - n) * p - 10000 * w)
         == Span(n) * (p * p) - 100000000 * Parabola(w, p)
  {
    var a, b := 10000 * w, n * p;
    Expand(a, b, 30000 * p);
    assert (30000 - n) * p == 30000 * p - b;
    assert a * (30000 * p) == 300000000 * (w * p) && a * a == 100000000 * (w * w);
    SpanTimes(n, p);
    assert Parabola(w, p) == w * w - 3 * (w * p) + 2 * (p * p);
  }

  lemma Expand(a: int, b: int, c: int)
    ensures (a - b) * (c - b - a) == a * c - a * a - b * c + b * b
  {
    assert (a - b) * (c - b - a) == a * (c - b - a) - b * (c - b - a);
  }

  lemma SpanTimes(n: nat, p: nat)
    requires n <= 10000
    ensures Span(n) * (p * p) == 200000000 * (p * p) - (n * p) * (30000 * p) + (n * p) * (n * p)
  {
    var pp := p * p;
    assert Span(n) == 200000000 - 30000 * n + n * n;
    assert (200000000 - 30000 * n + n * n) * pp == 200000000 * pp - (30000 * n) * pp + (n * n) * pp;
    assert (n * p) * (30000 * p) == (30000 * n) * pp;
    assert (n * p) * (n * p) == (n * n) * pp;
  }

  lemma ScaleDeficitUp(pp: nat, e: int, c: int, w: nat, a: nat)
    requires pp > 0 && 100000000 * c <= a * pp && 2 * (pp * e) <= 4294967296 * c + 2 * (pp * w)
    ensures 200000000 * (e - w) <= a * 4294967296
  {
    assert (200000000 * (e - w)) * pp == 200000000 * (pp * e) - 200000000 * (pp * w);
    assert (a * 4294967296) * pp == 4294967296 * (a * pp);
    MulCancel(200000000 * (e - w), a * 4294967296, pp);
  }

  lemma ScaleDeficitDown(pp: nat, e: int, c: int, a: nat)
    requires pp > 0 && a * pp <= 100000000 * c && 4294967296 * c - 2 * pp <= 2 * (pp * e)
    ensures a * 4294967296 <= 200000000 * (e + 1)
  {
    assert (200000000 * (e + 1)) * pp == 200000000 * (pp * e) + 200000000 * pp;
    assert (a * 4294967296) * pp == 4294967296 * (a * pp);
    MulCancel(a * 4294967296, 200000000 * (e + 1), pp);
  }

  /** A deficit of the seed of at most m leaves at most d after one iteration. */
  lemma DeficitAtMost(w: nat, m: nat, d: nat)
    requires 0 < w < TWO32 && -(TWO32 / 8) - 1 <= Deficit(w, 0) <= m && m >= TWO32 / 8 + 1
    requires m * m + w * TWO32 <= d * TWO32
    ensures Deficit(w, 1) <= d
  {
    FirstIteration(w);
    hide *;
    SquareAtMost(Deficit(w, 0), m);
    MulCancel(Deficit(w, 1), d, 4294967296);
  }

  lemma SquareAtMost(e: int, m: nat)
    requires e + m >= 0 && e <= m
    ensures e * e <= m * m
  {
    if e >= 0 {
      MulMono(e, m, e);
      MulMono(e, m, m);
    } else {
      MulMono(-e, m, -e);
      MulMono(-e, m, m);
      assert e * e == (-e) * (-e);
    }
  }

  /** A deficit of the seed of at least m leaves at least d. */
  lemma DeficitAtLeast(w: nat, m: nat, d: nat)
    requires 0 < w < TWO32 && Deficit(w, 0) >= m && m * m >= d * TWO32
    ensures Deficit(w, 1) >= d
  {
    FirstIteration(w);
    hide *;
    SquareAtMost(m, Deficit(w, 0));
    MulCancel(d, Deficit(w, 1), 4294967296);
  }

  /** For every u32 weight below 0.7744 times its nearest power of two the bound fails. */
  lemma FarBelowPowerFails(w: nat)
    requires 0 < w < TWO32 && 10000 * w <= 7744 * NearestPow2(w)
    ensures !WithinDocumentedBound(w)
  {
    SeedDeficitAtLeast(w, 7744);
    hide Deficit;
    hide NearestPow2;
    DeficitAtLeast(w, 593769264, 82087223);
  }

  lemma NearPowerHolds(w: nat)
    requires 0 < w < 98304 && 10000 * w >= 7745 * NearestPow2(w)
    ensures WithinDocumentedBound(w)
  {
    SeedBelow(w, 7745);
    hide NearestPow2;
    hide Deficit;
    if 10 * w <= 8 * NearestPow2(w) {
      DeficitAtMost(w, 593510070, 82068001);
    } else {
      SeedDeficitAtMost(w, 8000);
      DeficitAtMost(w, 536870913, 67207168);
    }
  }

  /** The bounds on the deficit of the seed for a weight at least n/10000 of p. */
  lemma SeedBelow(w: nat, n: nat)
    requires 0 < w < 98304 && n <= 10000 && n * NearestPow2(w) <= 10000 * w
    ensures NearestPow2(w) <= 65536 && 2 * w <= 3 * NearestPow2(w)
    ensures -(TWO32 / 8) - 1 <= Deficit(w, 0)
    ensures 200000000 * (Deficit(w, 0) - w) <= Span(n) * TWO32
  {
    var k := NearestPow2Below2To17(w);
    SeedDeficit(w);
    SeedDeficitAtMost(w, n);
  }

  /** The few weights between the bounds above are decided one by one. */
  lemma NearThreshold(w: nat, k: nat)
    requires 0 < w < 98304 && k <= 16 && NearestPow2(w) == Pow2(k)
    requires 7744 * Pow2(k) < 10000 * w < 7745 * Pow2(k)
    ensures WithinDocumentedBound(w) <==> AboveThreshold(w, Pow2(k))
  {
    WeightsNearThreshold(w, k);
    PowersOfTwo();
    hide WithinDocumentedBound;
    hide AboveThreshold;
    hide Pow2;
    if w < 8000 {
      NearThresholdSmall(w);
    } else if w < 32000 {
      NearThresholdMiddle(w);
    } else {
      NearThresholdLargest(w);
    }
  }

  lemma NearThresholdSmall(w: nat)
    requires w == 793 || w == 1586 || w == 3172 || w == 6344
    ensures WithinDocumentedBound(w)
    ensures AboveThreshold(793, 1024) && AboveThreshold(1586, 2048)
    ensures AboveThreshold(3172, 4096) && AboveThreshold(6344, 8192)
  {
    PowersOfTwo();
    hide Pow2;
    hide Newton;
    if w == 793 {
      OneIterationValue(793, 9, 1024, 4667392, 5312600);
    } else if w == 1586 {
      OneIterationValue(1586, 10, 2048, 2333696, 2656300);
    } else if w == 3172 {
      OneIterationValue(3172, 11, 4096, 1166848, 1328150);
    } else if w == 6344 {
      OneIterationValue(6344, 12, 8192, 583424, 664075);
    }
  }

  lemma NearThresholdMiddle(w: nat)
    requires w == 12688 || w == 12689 || 25376 <= w <= 25378
    ensures WithinDocumentedBound(w) <==> AboveThreshold(w, if w < 16000 then 16384 else 32768)
  {
    PowersOfTwo();
    hide Pow2;
    hide Newton;
    if w == 12688 {
      OneIterationValue(12688, 13, 16384, 291712, 332037);
    } else if w == 12689 {
      OneIterationValue(12689, 13, 16384, 291704, 332015);
    } else if w == 25376 {
      OneIterationValue(25376, 14, 32768, 145856, 166018);
    } else if w == 25377 {
      OneIterationValue(25377, 14, 32768, 145854, 166013);
    } else if w == 25378 {
      OneIterationValue(25378, 14, 32768, 145852, 166007);
    }
  }

  lemma NearThresholdLargest(w: nat)
    requires 50752 <= w <= 50757
    ensures WithinDocumentedBound(w) <==> AboveThreshold(w, 65536)
  {
    PowersOfTwo();
    hide Pow2;
    hide Newton;
    if w == 50752 {
      OneIterationValue(50752, 15, 65536, 72928, 83009);
    } else if w == 50753 {
      OneIterationValue(50753, 15, 65536, 72927, 83007);
    } else if w == 50754 {
      OneIterationValue(50754, 15, 65536, 72927, 83006);
    } else if w == 50755 {
      OneIterationValue(50755, 15, 65536, 72926, 83005);
    } else if w == 50756 {
      OneIterationValue(50756, 15, 65536, 72926, 83003);
    } else {
      OneIterationValue(50757, 15, 65536, 72925, 83002);
    }
  }

  lemma WeightsNearThreshold(w: nat, k: nat)
    requires k <= 16 && 7744 * Pow2(k) < 10000 * w < 7745 * Pow2(k)
    ensures w == 793 || w == 1586 || w == 3172 || w == 6344
            || w == 12688 || w == 12689 || 25376 <= w <= 25378 || 50752 <= w <= 50757
    ensures w < 1000 ==> k == 10
    ensures 1000 < w < 2000 ==> k == 11
    ensures 2000 < w < 4000 ==> k == 12
    ensures 4000 < w < 8000 ==> k == 13
    ensures 8000 < w < 16000 ==> k == 14
    ensures 16000 < w < 32000 ==> k == 15
    ensures 32000 < w ==> k == 16
  {
    PowersOfTwo();
    hide Pow2;
  }

  /** One iteration for a weight between 2^k and 2^(k+1) whose nearest power of two is p. */
  lemma OneIterationValue(w: nat, k: nat, p: nat, x0: nat, x: nat)
    requires 1 < w < TWO32 && k <= 16 && Pow2(k) <= w < Pow2(k + 1)
    requires p == (if Pow2(k) == w || w - Pow2(k) <= 2 * Pow2(k) - w then Pow2(k) else 2 * Pow2(k))
    requires x0 == TWO32 / p * (3 * (TWO32 / 2) - w * TWO32 / p / 2) / TWO32
    requires w * x0 < 2 * TWO32 && x == x0 * (2 * TWO32 - w * x0) / TWO32
    ensures Newton(w, 1) == x
  {
    NearestPow2Value(w, k, p);
    SeedValue(w, p, x0);
    hide *;
    NewtonStepValue(w, 0);
  }

  lemma SeedValue(w: nat, p: nat, x0: nat)
    requires 1 < w < TWO32 && NearestPow2(w) == p
    requires x0 == TWO32 / p * (3 * (TWO32 / 2) - w * TWO32 / p / 2) / TWO32
    ensures Newton(w, 0) == x0 && Deficit(w, 0) == TWO32 - w * x0
  {
    hide NearestPow2;
    MantissaBelow2(w);
  }

  lemma NearestPow2Value(w: nat, k: nat, p: nat)
    requires 1 < w < TWO32 && k <= 16 && Pow2(k) <= w < Pow2(k + 1)
    requires p == (if Pow2(k) == w || w - Pow2(k) <= 2 * Pow2(k) - w then Pow2(k) else 2 * Pow2(k))
    ensures NearestPow2(w) == p
  {
    FloorLogUnique(w, k);
    Pow2Small(k);
  }

  /** A weight within the bound is charged within it, up to one nanosecond, whatever the time. */
  lemma DocumentedBsaCharge(delta: nat, w: nat)
    requires delta < TWO32 && 1 < w < TWO32 && WithinDocumentedBound(w)
    ensures 98089 * ExactCharge(delta, w) <= 100000 * (BsaCharge(delta, w) + 1)
  {
    if w != NICE_0_LOAD {
      BsaQuotient(delta, w);
      ExactQuotient(delta, w);
      hide ExactCharge;
      hide BsaCharge;
      hide Newton;
      DivBounds(TWO32, w);
      ShareOfInverse(w, Newton(w, 1), TWO32 / w);
      hide *;
      ChargeShare(delta, Newton(w, 1), TWO32 / w, 98089, 100000);
    }
  }

  lemma ShareOfInverse(w: nat, x: nat, inv: nat)
    requires w > 0 && inv * w <= 4294967296 && 100000 * (4294967296 - w * x) <= 1911 * 4294967296
    ensures 98089 * inv <= 100000 * x
  {
    assert (98089 * inv) * w == 98089 * (inv * w) && (100000 * x) * w == 100000 * (w * x);
    MulCancel(98089 * inv, 100000 * x, w);
  }

  /** Whether the BSA charge of one tick is within the documented 1.911% of the exact one. */
  predicate TickWithinDocumentedBound(w: nat)
    requires w < TWO32
  {
    100000 * (ExactCharge(TICK_NS, w) - BsaCharge(TICK_NS, w)) <= 1911 * ExactCharge(TICK_NS, w)
  }

  /** The exact charge of a tick times the weight is 1024 ticks, up to truncation. */
  lemma ExactTickTimesWeight(w: nat)
    requires 1 < w < TWO32 && w != NICE_0_LOAD
    ensures 4194304 * (ExactCharge(TICK_NS, w) * w) <= TICK_NS * TWO32
    ensures TICK_NS * TWO32 < 4194304 * (ExactCharge(TICK_NS, w) * w) + (4194304 + TICK_NS) * w
  {
    ExactQuotient(TICK_NS, w);
    TruncatedTwice(w, TWO32 / w, ExactCharge(TICK_NS, w));
  }

  lemma TruncatedTwice(w: nat, inv: nat, e: nat)
    requires w > 0 && inv == TWO32 / w && e == TICK_NS * inv / 4194304
    ensures 4194304 * (e * w) <= TICK_NS * TWO32 < 4194304 * (e * w) + (4194304 + TICK_NS) * w
  {
    DivBounds(TWO32, w);
    MulMono(4194304 * e, TICK_NS * inv, w);
    MulMono(TICK_NS * inv + 1, 4194304 * e + 4194304, w);
    assert (4194304 * e) * w == 4194304 * (e * w) && (TICK_NS * inv) * w == TICK_NS * (inv * w);
    assert (4194304 * e + 4194304) * w == 4194304 * (e * w) + 4194304 * w;
    assert (TICK_NS * inv + 1) * w == TICK_NS * (inv * w) + w;
  }

  lemma BsaTickTimesWeight(w: nat)
    requires 1 < w < TWO32 && w != NICE_0_LOAD
    ensures 4194304 * (BsaCharge(TICK_NS, w) * w) <= TICK_NS * (TWO32 - Deficit(w, 1))
    ensures TICK_NS * (TWO32 - Deficit(w, 1)) <= 4194304 * (BsaCharge(TICK_NS, w) * w) + 4194304 * w
  {
    BsaQuotient(TICK_NS, w);
    hide BsaCharge;
    TruncatedOnce(w, Newton(w, 1), BsaCharge(TICK_NS, w));
  }

  lemma TruncatedOnce(w: nat, x: nat, b: nat)
    requires b == TICK_NS * x / 4194304
    ensures 4194304 * (b * w) <= TICK_NS * (w * x) <= 4194304 * (b * w) + 4194304 * w
  {
    MulMono(4194304 * b, TICK_NS * x, w);
    MulMono(TICK_NS * x, 4194304 * b + 4194304, w);
    assert (4194304 * b) * w == 4194304 * (b * w) && (TICK_NS * x) * w == TICK_NS * (w * x);
    assert (4194304 * b + 4194304) * w == 4194304 * (b * w) + 4194304 * w;
  }

  /**
   * Off a narrow band around the threshold the rounding of the charge of a tick does not
   * matter: it is within the documented bound above the band and not within it below.
   */
  lemma BsaTickBound(w: nat)
    requires 0 < w < 98304
    ensures 1000 * w >= 775 * NearestPow2(w) ==> TickWithinDocumentedBound(w)
    ensures 1000 * w <= 774 * NearestPow2(w) ==> !TickWithinDocumentedBound(w)
  {
    if w == 1 {
      UnitWeight(1);
      assert NearestPow2(1) == 1;
    } else if w == NICE_0_LOAD {
      PowersOfTwo();
      FloorLogUnique(NICE_0_LOAD, 10);
    } else if 1000 * w >= 775 * NearestPow2(w) {
      BsaTickWithin(w);
    } else if 1000 * w <= 774 * NearestPow2(w) {
      BsaTickShort(w);
    }
  }

  lemma BsaTickWithin(w: nat)
    requires 1 < w < 98304 && w != NICE_0_LOAD && 1000 * w >= 775 * NearestPow2(w)
    ensures TickWithinDocumentedBound(w)
  {
    SeedBelow(w, 7750);
    hide NearestPow2;
    hide Deficit;
    hide ExactCharge;
    hide BsaCharge;
    if 10 * w <= 8 * NearestPow2(w) {
      DeficitAtMost(w, 591952608, 81638123);
    } else {
      SeedDeficitAtMost(w, 8000);
      DeficitAtMost(w, 536870913, 67207168);
    }
    ExactTickTimesWeight(w);
    BsaTickTimesWeight(w);
    SmallDeficitSuffices(w, ExactCharge(TICK_NS, w), BsaCharge(TICK_NS, w), Deficit(w, 1));
  }

  lemma SmallDeficitSuffices(w: nat, e: nat, b: nat, d: int)
    requires w > 0 && 4194304 * (e * w) <= 1000000 * 4294967296
    requires 1000000 * (4294967296 - d) <= 4194304 * (b * w) + 4194304 * w
    requires 100000 * d + 419431 * w <= 1911 * 4294967296
    ensures 98089 * e <= 100000 * b
  {
    assert (98089 * e) * w == 98089 * (e * w) && (100000 * b) * w == 100000 * (b * w);
    MulCancel(98089 * e, 100000 * b, w);
  }

  lemma BsaTickShort(w: nat)
    requires 1 < w < 98304 && w != NICE_0_LOAD && 1000 * w <= 774 * NearestPow2(w)
    ensures !TickWithinDocumentedBound(w)
  {
    var k := NearestPow2Below2To17(w);
    SeedDeficitAtLeast(w, 7740);
    hide NearestPow2;
    hide Deficit;
    hide ExactCharge;
    hide BsaCharge;
    DeficitAtLeast(w, 595016179, 82432351);
    ExactTickTimesWeight(w);
    BsaTickTimesWeight(w);
    LargeDeficitShows(w, ExactCharge(TICK_NS, w), BsaCharge(TICK_NS, w), Deficit(w, 1));
  }

  lemma LargeDeficitShows(w: nat, e: nat, b: nat, d: int)
    requires w > 0 && 1000000 * 4294967296 < 4194304 * (e * w) + 5194304 * w
    requires 4194304 * (b * w) <= 1000000 * (4294967296 - d)
    requires 1911 * 4294967296 + 509505 * w <= 100000 * d
    ensures 98089 * e > 100000 * b
  {
    assert (98089 * e) * w == 98089 * (e * w) && (100000 * b) * w == 100000 * (b * w);
    MulMono(98089 * e, 100000 * b, w);
  }

  /** The charge of one tick misses the documented bound at nice -5 and at no other nice level. */
  lemma BsaNiceLevels(i: nat)
    requires i < 40
    ensures TickWithinDocumentedBound(NICE_TO_WEIGHT[i]) <==> NICE_TO_WEIGHT[i] != 3121
  {
    var w := NICE_TO_WEIGHT[i];
    hide TickWithinDocumentedBound;
    var k := NearestPow2Below2To17(w);
    NiceWeightsNearPower(i, k);
    BsaTickBound(w);
    NiceMinusTwo();
  }

  /** Nice -2 lies within the band. */
  lemma NiceMinusTwo()
    ensures TickWithinDocumentedBound(1586)
  {
    PowersOfTwo();
    OneIterationValue(1586, 10, 2048, 2333696, 2656300);
    BsaQuotient(TICK_NS, 1586);
    ExactQuotient(TICK_NS, 1586);
    hide Pow2;
    hide Newton;
    hide ExactCharge;
    hide BsaCharge;
    assert BsaCharge(TICK_NS, 1586) == 633311 && ExactCharge(TICK_NS, 1586) == 645649;
  }

  lemma NiceWeightsNearPower(i: nat, k: nat)
    requires i < 40 && k <= 16
    requires 3 * Pow2(k) <= 4 * NICE_TO_WEIGHT[i] && 2 * NICE_TO_WEIGHT[i] <= 3 * Pow2(k)
    ensures 1000 * NICE_TO_WEIGHT[i] <= 774 * Pow2(k) <==> NICE_TO_WEIGHT[i] == 3121
    ensures 1000 * NICE_TO_WEIGHT[i] < 775 * Pow2(k) ==> NICE_TO_WEIGHT[i] == 3121 || NICE_TO_WEIGHT[i] == 1586
  {
    PowersOfTwo();
    hide Pow2;
  }

  /** Whether the CLTI charge of one tick is within the documented 3% of the exact one. */
  predicate WithinThreePercent(w: nat)
    requires w < TWO32
  {
    100 * Abs(CltiCharge(TICK_NS, w) - ExactCharge(TICK_NS, w)) <= 3 * ExactCharge(TICK_NS, w)
  }

  /** The charge of one tick for each class representative. */
  function ClassTick(c: nat): nat
    requires c < 8
  {
    [15625, 62500, 250000, 500000, 1000000, 4000000, 16000000, 64000000][c]
  }

  lemma ClassExponent(c: nat) returns (k: nat)
    requires c < 8
    ensures k <= 16 && CLTI_WEIGHT_CLASS[c] == Pow2(k) && TICK_NS * Pow2(32 - k) / 4194304 == ClassTick(c)
    ensures Pow2(32 - k) < TWO32
  {
    k := [16, 14, 12, 11, 10, 8, 6, 4][c];
    PowersOfTwo();
    assert Pow2(18) == 262144 && Pow2(20) == 1048576 && Pow2(21) == 2097152 && Pow2(22) == 4194304;
    assert Pow2(24) == 16777216 && Pow2(26) == 67108864 && Pow2(28) == 268435456;
    hide Pow2;
    assert c == 0 || c == 1 || c == 2 || c == 3 || c == 4 || c == 5 || c == 6 || c == 7;
  }

  lemma RepresentativeCharge(w: nat, c: nat)
    requires w != NICE_0_LOAD && w > 0 && c < 8
    ensures CLTI_WEIGHT_CLASS[c] < TWO32
    ensures ReciprocalCharge(TICK_NS, w, CLTI_WEIGHT_CLASS[c], 1) == ClassTick(c)
  {
    hide Newton;
    hide MulShr;
    hide ClassTick;
    var k := ClassExponent(c);
    PowerOfTwoReciprocal(k, 1);
    MulShr22Mono(TICK_NS, Pow2(32 - k), Pow2(32 - k));
    hide Pow2;
    ModSmall(Pow2(32 - k), TWO32);
  }

  /**
   * Within 3% of the representative r of its class. The truncation of the exact charge moves the
   * two ends of the interval of the largest class, by three weights and by one.
   */
  predicate NearRepresentative(w: nat, r: nat) {
    (97 * r <= 100 * w <= 103 * r || 63567 <= w <= 63569) && w != 67502
  }

  /**
   * The documented 3% bound on the vruntime error of CLTI holds of a weight if and only if the
   * weight itself is within 3% of the representative of its class.
   */
  lemma DocumentedCltiBound(w: nat)
    requires 0 < w < TWO32
    ensures WithinThreePercent(w) <==> NearRepresentative(w, CLTI_WEIGHT_CLASS[BestClass(w, 8)])
  {
    var c := BestClass(w, 8);
    if w == NICE_0_LOAD {
      NiceZeroClass();
    } else {
      CltiTick(w, c);
      ClassOf(w, c);
      hide BestClass;
      hide CltiCharge;
      hide ClassDistance;
      ClassDecides(w, c);
    }
  }

  lemma ClassDecides(w: nat, c: nat)
    requires 0 < w < TWO32 && w != NICE_0_LOAD && c < 8 && CltiCharge(TICK_NS, w) == ClassTick(c)
    requires (c == 0 <==> w >= 40960) && (w == 1 ==> c == 7)
    ensures WithinThreePercent(w) <==> NearRepresentative(w, CLTI_WEIGHT_CLASS[c])
  {
    hide CltiCharge;
    hide ExactCharge;
    hide ClassTick;
    if w == 1 {
      UnitCharge();
    } else if c == 0 {
      LargestClass(w);
    } else {
      ExactTickTimesWeight(w);
      SmallerClass(w, c, ExactCharge(TICK_NS, w));
    }
  }

  lemma UnitCharge()
    ensures ExactCharge(TICK_NS, 1) == 0 && ClassTick(7) == 64000000
  {
    UnitWeight(1);
  }

  lemma CltiTick(w: nat, c: nat)
    requires w > 0 && w != NICE_0_LOAD && c == BestClass(w, 8)
    ensures CltiCharge(TICK_NS, w) == ClassTick(c)
  {
    RepresentativeCharge(w, c);
    hide BestClass;
    hide ReciprocalCharge;
    hide ClassTick;
  }

  lemma ClassOf(w: nat, c: nat)
    requires c == BestClass(w, 8)
    ensures c == 0 ==> w >= 40960
    ensures c > 0 ==> w < 40960
    ensures w == 1 ==> c == 7
  {
    hide BestClass;
    assert ClassDistance(w, c) <= ClassDistance(w, 0);
    assert ClassDistance(w, c) <= ClassDistance(w, 1);
    assert ClassDistance(w, c) <= ClassDistance(w, 7);
  }

  /** Products with the weight decide the comparison, for a charge e of the weight truncated twice. */
  lemma SmallerClass(w: nat, c: nat, e: nat)
    requires 1 < w < 40960 && 1 <= c < 8
    requires 4194304 * (e * w) <= 1000000 * 4294967296 < 4194304 * (e * w) + 5194304 * w
    ensures 100 * Abs(ClassTick(c) - e) <= 3 * e <==> 97 * CLTI_WEIGHT_CLASS[c] <= 100 * w <= 103 * CLTI_WEIGHT_CLASS[c]
  {
    var t := ClassTick(c);
    TimesWeight(97 * e, 100 * t, w);
    TimesWeight(100 * t, 103 * e, w);
    assert (97 * e) * w == 97 * (e * w) && (103 * e) * w == 103 * (e * w);
    assert (100 * t) * w == 100 * (t * w);
    SmallerClassProducts(w, c, e * w);
  }

  lemma TimesWeight(a: nat, b: nat, w: nat)
    requires w > 0
    ensures a <= b <==> a * w <= b * w
  {
    MulMono(a, b, w);
    MulMono(b + 1, a, w);
  }

  lemma SmallerClassProducts(w: nat, c: nat, ew: nat)
    requires 1 < w && 1 <= c < 8
    requires 4194304 * ew <= 1000000 * 4294967296 < 4194304 * ew + 5194304 * w
    ensures 97 * ew <= 100 * (ClassTick(c) * w) <==> 97 * CLTI_WEIGHT_CLASS[c] <= 100 * w
    ensures 100 * (ClassTick(c) * w) <= 103 * ew <==> 100 * w <= 103 * CLTI_WEIGHT_CLASS[c]
  {
    if c == 1 {
    } else if c == 2 {
    } else if c == 3 {
    } else if c == 4 {
    } else if c == 5 {
    } else if c == 6 {
    } else {
    }
  }

  /** The exact charge falls with the weight, so four of its values decide the largest class. */
  lemma LargestClass(w: nat)
    requires 40960 <= w < TWO32
    ensures 100 * Abs(ClassTick(0) - ExactCharge(TICK_NS, w)) <= 3 * ExactCharge(TICK_NS, w)
            <==> NearRepresentative(w, 65536)
  {
    ExactTickAntitone(w, 63566);
    ExactTickAntitone(63567, w);
    ExactTickAntitone(w, 67501);
    ExactTickAntitone(67502, w);
    LargestClassEnds();
    hide ExactCharge;
  }

  lemma LargestClassEnds()
    ensures ExactCharge(TICK_NS, 63566) == 16109 && ExactCharge(TICK_NS, 63567) == 16108
    ensures ExactCharge(TICK_NS, 67501) == 15170 && ExactCharge(TICK_NS, 67502) == 15169
  {
    ExactQuotient(TICK_NS, 63566);
    ExactQuotient(TICK_NS, 63567);
    ExactQuotient(TICK_NS, 67501);
    ExactQuotient(TICK_NS, 67502);
    hide ExactCharge;
  }

  lemma ExactTickAntitone(v: nat, w: nat)
    requires 1024 < v < TWO32 && 1024 < w < TWO32
    ensures v <= w ==> ExactCharge(TICK_NS, w) <= ExactCharge(TICK_NS, v)
  {
    ExactQuotient(TICK_NS, v);
    ExactQuotient(TICK_NS, w);
    hide ExactCharge;
    if v <= w {
      DivBounds(TWO32, w);
      DivGe(TWO32, w, 0);
      MulMono(v, w, TWO32 / w);
      DivGe(TWO32, v, TWO32 / w);
      QuotientMono(TICK_NS, TWO32 / w, TWO32 / v);
    }
  }

  /** Of the forty nice levels only 0 and -3 are that near a representative. */
  lemma CltiNiceLevels(i: nat)
    requires i < 40
    ensures WithinThreePercent(NICE_TO_WEIGHT[i]) <==> NICE_TO_WEIGHT[i] == 1024 || NICE_TO_WEIGHT[i] == 1991
  {
    var w := NICE_TO_WEIGHT[i];
    DocumentedCltiBound(w);
    NiceZeroClass();
    NiceMinusThreeClass();
    hide WithinThreePercent;
    NiceWeightsNearRepresentative(i, BestClass(w, 8));
  }

  lemma NiceMinusThreeClass()
    ensures BestClass(1991, 8) == 3
  {
    var c := BestClass(1991, 8);
    hide BestClass;
    assert ClassDistance(1991, 3) == 57;
    OnlyClassNear1991(c);
  }

  lemma OnlyClassNear1991(c: nat)
    requires c < 8 && ClassDistance(1991, c) <= 57
    ensures c == 3
  {}

  lemma NiceWeightsNearRepresentative(i: nat, c: nat)
    requires i < 40 && c < 8
    ensures NearRepresentative(NICE_TO_WEIGHT[i], CLTI_WEIGHT_CLASS[c])
            <==> (NICE_TO_WEIGHT[i] == 1024 && c == 4) || (NICE_TO_WEIGHT[i] == 1991 && c == 3)
  {}

  /** For every nice-table weight two iterations keep at least 99.93% of the exact inverse. */
  lemma TwoIterationsKeep(w: nat)
    requires 1 < w <= 88761
    ensures 9993 * (TWO32 / w) <= 10000 * Newton(w, 2)
  {
    hide Newton;
    OneIterationDeficit(w);
    NewtonConverges(w, 1);
    SmallDeficitSquare(Deficit(w, 1), Deficit(w, 2), w);
    DivBounds(TWO32, w);
    Keeps(w, Newton(w, 2), TWO32 / w, 3006477, 9993);
  }

  lemma SmallDeficitSquare(e: int, e': int, w: nat)
    requires w <= 88761 && 0 <= e <= 25 * 4194304 + 3 * w && e' * 4294967296 <= e * e + w * 4294967295
    ensures e' <= 3006477
  {
    var m := 25 * 4194304 + 3 * 88761;
    MulMono(e, m, e);
    MulMono(e, m, m);
  }

  /**
   * In TIGHT and MEDIUM the APAF charge is within 0.07% of the exact one, well inside the
   * documented 1%, and in LOOSE within 2.45%, inside the documented 5%.
   */
  lemma ApafChargeError(delta: nat, weight: nat, state: ApafState)
    requires delta < TWO32 && 1 < weight <= 88761
    ensures (if state == Loose then 9755 else 9993) * ExactCharge(delta, weight)
            <= 10000 * (ApafCharge(delta, weight, state) + 1)
  {
    if state == Loose {
      BsaChargeError(delta, weight);
    } else if weight != NICE_0_LOAD {
      ApafQuotient(delta, weight);
      ExactQuotient(delta, weight);
      hide ExactCharge;
      hide ReciprocalCharge;
      hide Newton;
      TwoIterationsKeep(weight);
      ChargeShare(delta, Newton(weight, 2), TWO32 / weight, 9993, 10000);
    }
  }

  /** The charge of a tick in TIGHT and MEDIUM: what two iterations leave is the square of what one leaves. */
  lemma ApafTickDeficit(w: nat, state: ApafState)
    requires 1 < w < TWO32 && w != NICE_0_LOAD && state != Loose
    ensures var c, d := ApafCharge(TICK_NS, w, state), Deficit(w, 2);
            && 4194304 * (c * w) <= TICK_NS * (TWO32 - d) <= 4194304 * (c * w) + 4194304 * w
            && Deficit(w, 1) * Deficit(w, 1) <= d * TWO32 <= Deficit(w, 1) * Deficit(w, 1) + w * (TWO32 - 1)
  {
    ApafQuotient(TICK_NS, w);
    hide ReciprocalCharge;
    NewtonConverges(w, 1);
    hide Newton;
    TruncatedOnce(w, Newton(w, 2), ApafCharge(TICK_NS, w, state));
  }

  /** A stretch of 2^32 ns or more is halved before the product and doubled after it: little is lost. */
  lemma LongStretch(delta: nat, w: nat)
    requires TWO32 <= delta < TWO64 && 1 < w < TWO32 && w != NICE_0_LOAD
    requires delta * (TWO32 / w) < TWO64 * 4194304
    ensures var c, inv := ExactCharge(delta, w), TWO32 / w;
            4194304 * c <= delta * inv < 4194304 * c + 8388608 + inv
  {
    var inv, half := TWO32 / w, delta / 2;
    DivBounds(TWO32, w);
    MulMono(2, w, inv);
    ModSmall(inv, TWO32);
    Pow2At32();
    var q := half * inv / 4194304;
    DivBounds(half * inv, 4194304);
    DoubledHalf(delta, half, inv, q);
    ModSmall(q, TWO64);
    ModSmall(2 * q, TWO64);
    assert MulShr(half, inv, 22) == q;
    hide MulShr;
  }

  lemma DoubledHalf(delta: nat, half: nat, inv: nat, q: int)
    requires half == delta / 2 && 4194304 * q <= half * inv < 4194304 * q + 4194304
    requires delta * inv < TWO64 * 4194304
    ensures 4194304 * (2 * q) <= delta * inv < 4194304 * (2 * q) + 8388608 + inv && 2 * q < TWO64
  {
    MulMono(2 * half, delta, inv);
    MulMono(delta, 2 * half + 1, inv);
    assert (2 * half) * inv == 2 * (half * inv) && (2 * half + 1) * inv == 2 * (half * inv) + inv;
  }
}
