/**
 * How far the BSA, CLTI and APAF decays are from the exact one over any number of
 * periods, for every load.
 */
module DecayError {
  import opened Arithmetic
  import opened Constants
  import opened Decay
  import opened NewtonReciprocal
  import opened Charge
  import opened ApproxDecay

  /** (31/32)^r. */
  function Bsa31(r: nat): (y: real)
    ensures 0.0 < y <= 1.0
  {
    if r == 0 then 1.0 else Bsa31(r - 1) * 31.0 / 32.0
  }

  /**
   * d lies between the geometric decay of v over r rounds and the geometric decay
   * towards 31, below which the shift no longer takes anything away.
   */
  ghost predicate BsaEnvelope(v: nat, r: nat, d: nat) {
    && Bsa31(r) * v as real <= d as real
    && (v >= 31 ==> d as real <= 31.0 + Bsa31(r) * (v as real - 31.0))
  }

  /** r rounds of BSA on any load. */
  lemma {:induction false} BsaRoundsBounds(v: nat, r: nat)
    ensures BsaEnvelope(v, r, BsaRounds(v, r))
  {
    if r == 0 {
    } else {
      BsaRoundsBounds(v, r - 1);
      EnvelopeStep(v, r, BsaRounds(v, r - 1));
    }
  }

  lemma EnvelopeStep(v: nat, r: nat, x: nat)
    requires r > 0 && BsaEnvelope(v, r - 1, x)
    ensures BsaEnvelope(v, r, x - x / 32)
  {
    var y := Bsa31(r - 1);
    assert Bsa31(r) == y * 31.0 / 32.0;
    hide Bsa31;
    OneRound(x);
    RoundBounds(y, v as real, x as real, (x - x / 32) as real);
  }

  lemma OneRound(x: nat)
    ensures 31.0 * x as real / 32.0 <= (x - x / 32) as real <= 31.0 * x as real / 32.0 + 31.0 / 32.0
  {}

  lemma RoundBounds(y: real, v: real, x: real, x': real)
    requires y * v <= x && 31.0 * x / 32.0 <= x' <= 31.0 * x / 32.0 + 31.0 / 32.0
    ensures (y * 31.0 / 32.0) * v <= x'
    ensures x <= 31.0 + y * (v - 31.0) ==> x' <= 31.0 + (y * 31.0 / 32.0) * (v - 31.0)
  {
    RoundScale(y, v);
    RoundScale(y, v - 31.0);
  }

  lemma RoundScale(y: real, v: real)
    ensures (y * 31.0 / 32.0) * v == (y * v) * 31.0 / 32.0
  {}

  /** A whole BSA decay: the half-lives are exact, the rest is rounds. */
  lemma BsaDecayBounds(load: nat, periods: nat)
    requires periods < 2016
    ensures BsaEnvelope(Shr(load, periods / 32), periods % 32, BsaDecay(load, periods))
  {
    hide BsaEnvelope;
    hide BsaRounds;
    BsaRoundsBounds(Shr(load, periods / 32), periods % 32);
    if periods == 0 {
      assert Shr(load, 0) == load;
      BsaRoundsBounds(load, 0);
      NoRounds(load);
    }
  }

  lemma NoRounds(v: nat)
    ensures BsaRounds(v, 0) == v
  {}

  /** One period: BSA is at most one above the exact decay and at most 1.0038% below it. */
  lemma BsaOnePeriodError(v: nat)
    requires v < TWO64
    ensures -1 <= ExactDecay(v, 1) - BsaDecay(v, 1)
    ensures 1000000 * (ExactDecay(v, 1) - BsaDecay(v, 1)) <= 10038 * ExactDecay(v, 1)
  {
    ExactOnePeriod(v);
    var e := ExactDecay(v, 1);
    hide ExactDecay;
    DivBounds(v * 4202935002, 4294967296);
    assert Shr(v, 0) == v && BsaRounds(v, 0) == v;
    assert BsaRounds(v, 1) == v - v / 32;
    OnePeriodGap(v, e, v - v / 32);
  }

  lemma OnePeriodGap(v: nat, e: nat, b: nat)
    requires e * 4294967296 <= v * 4202935002 < e * 4294967296 + 4294967296
    requires 31 * v <= 32 * b <= 31 * v + 31
    ensures -1 <= e - b && 1000000 * (e - b) <= 10038 * e
  {}

  /** The exact decay within a half-life. */
  lemma ExactWithinHalfLife(v: nat, n: nat)
    requires v < TWO64 && 0 < n < 32
    ensures ExactDecay(v, n) == v * YN_INV[n] / TWO32
  {
    TableEntry(n);
    MulShr32(v, YN_INV[n]);
    assert Shr(v, 0) == v;
  }

  /** The table entries around local_n, and zero beyond the table. */
  function Entry(idx: nat): nat {
    if idx < 8 then CLTI_DECAY_TABLE[idx] else 0
  }

  lemma EntriesDecrease(idx: nat)
    ensures Entry(idx + 1) <= Entry(idx) <= 32768
  {}

  lemma MulShr15Bracket(v: nat, a: nat)
    requires v < TWO64 && a <= 32768
    ensures MulShr(v, a, 15) * 32768 <= v * a < MulShr(v, a, 15) * 32768 + 32768
  {
    MulShr15(v, a);
    hide MulShr;
    DivBounds(v * a, 32768);
  }

  lemma MulShr15Mono(v: nat, b: nat, a: nat)
    requires v < TWO64 && b <= a <= 32768
    ensures MulShr(v, b, 15) <= MulShr(v, a, 15)
  {
    MulShr15(v, a);
    MulShr15(v, b);
    hide MulShr;
    MulMono(b, a, v);
    DivMono(v * b, v * a, 32768);
  }

  /** CLTI within the table, without the tests that cannot fail. */
  lemma InterpolateForm(v: nat, localN: nat) returns (base: nat, next: nat)
    requires v < TWO64 && 0 < localN <= 28
    ensures base * 32768 <= v * Entry(localN / 4) < base * 32768 + 32768
    ensures next * 32768 <= v * Entry(localN / 4 + 1) < next * 32768 + 32768
    ensures next <= base && CltiInterpolate(v, localN) == base - (base - next) * (localN % 4) / 4
  {
    hide MulShr;
    var a, b := Entry(localN / 4), Entry(localN / 4 + 1);
    EntriesDecrease(localN / 4);
    MulShr15Bracket(v, a);
    MulShr15Bracket(v, b);
    MulShr15Mono(v, b, a);
    base, next := MulShr(v, a, 15), MulShr(v, b, 15);
    InterpolateValue(v, localN, base, next);
  }

  lemma InterpolateValue(v: nat, localN: nat, base: nat, next: nat)
    requires 0 < localN <= 28 && next <= base
    requires base == MulShr(v, Entry(localN / 4), 15) && next == MulShr(v, Entry(localN / 4 + 1), 15)
    ensures CltiInterpolate(v, localN) == base - (base - next) * (localN % 4) / 4
  {
    hide MulShr;
    assert (base - next) * (localN % 4) / 4 <= base - next;
    if localN == 28 {
      assert localN % 4 == 0;
    }
  }

  /** The interpolated decay is within one unit of the interpolated factor. */
  lemma Interpolated(v: nat, localN: nat)
    requires v < TWO64 && 0 < localN <= 28
    ensures var rem, c := localN % 4, CltiInterpolate(v, localN);
            var f := Entry(localN / 4) * (4 - rem) + Entry(localN / 4 + 1) * rem;
            f * v < 131072 * (c + 1) && 131072 * (c - 1) < f * v
  {
    hide CltiInterpolate;
    hide Entry;
    var base, next := InterpolateForm(v, localN);
    InterpolatedCore(v, Entry(localN / 4), Entry(localN / 4 + 1), localN % 4, base, next);
  }

  lemma InterpolatedCore(v: nat, a: nat, b: nat, rem: nat, base: nat, next: nat)
    requires rem < 4 && next <= base
    requires base * 32768 <= v * a < base * 32768 + 32768
    requires next * 32768 <= v * b < next * 32768 + 32768
    ensures var correction := (base - next) * rem / 4;
            && (a * (4 - rem) + b * rem) * v < 131072 * (base - correction + 1)
            && 131072 * (base - correction - 1) < (a * (4 - rem) + b * rem) * v
  {
    var va, vb := v * a, v * b;
    assert (a * (4 - rem) + b * rem) * v == va * (4 - rem) + vb * rem;
    if rem == 0 {
    } else if rem == 1 {
    } else if rem == 2 {
    } else {
    }
  }

  /** The interpolated factor differs from the exact one by at most 0.0009. */
  lemma InterpolationError(n: nat)
    requires 0 < n <= 28
    ensures var f := Entry(n / 4) * (4 - n % 4) + Entry(n / 4 + 1) * (n % 4);
            -9 * 429496 <= f * 32768 - YN_INV[n] <= 9 * 429496
  {
    assert n == 4 * (n / 4) + n % 4;
    var i := n / 4;
    if i < 4 {
      assert i == 0 || i == 1 || i == 2 || i == 3;
    } else {
      assert i == 4 || i == 5 || i == 6 || i == 7;
    }
    assert n % 4 == 0 || n % 4 == 1 || n % 4 == 2 || n % 4 == 3;
  }

  /** CLTI is within 0.09% of the decayed load, plus 3, of the exact decay. */
  ghost predicate CltiWithin(load: nat, periods: nat) {
    10000 * Abs(CltiDecay(load, periods) - ExactDecay(load, periods)) <= 9 * Shr(load, periods / 32) + 30000
  }

  lemma CltiCore(v: nat, f: nat, t: nat, c: nat, e: nat)
    requires f * v < 131072 * (c + 1) && 131072 * (c - 1) < f * v
    requires -3865464 <= f * 32768 - t <= 3865464
    requires e * 4294967296 <= v * t < e * 4294967296 + 4294967296
    ensures 10000 * Abs(c - e) <= 9 * v + 30000
  {
    var g := f * 32768 - t;
    MulMono(g, 3865464, v);
    MulMono(-3865464, g, v);
    assert g * v == 32768 * (f * v) - v * t;
  }

  /** Any decay below the cutoff is a shift and a decay within a half-life. */
  lemma CltiAndExactForm(load: nat, periods: nat)
    requires periods < 2016
    ensures CltiDecay(load, periods) == CltiInterpolate(Shr(load, periods / 32), periods % 32)
    ensures ExactDecay(load, periods) == ExactDecay(Shr(load, periods / 32), periods % 32)
  {
    hide MulShr;
    assert Shr(load, 0) == load && Shr(Shr(load, periods / 32), 0) == Shr(load, periods / 32);
  }

  /** The bound for a load that is not shifted. */
  lemma CltiErrorWithinHalfLife(v: nat, n: nat)
    requires v < TWO64 && 0 < n <= 28
    ensures 10000 * Abs(CltiInterpolate(v, n) - ExactDecay(v, n)) <= 9 * v + 30000
  {
    hide CltiInterpolate;
    hide Entry;
    Interpolated(v, n);
    InterpolationError(n);
    ExactWithinHalfLife(v, n);
    hide ExactDecay;
    DivBounds(v * YN_INV[n], TWO32);
    TableEntry(n);
    CltiCore(v, Entry(n / 4) * (4 - n % 4) + Entry(n / 4 + 1) * (n % 4), YN_INV[n],
             CltiInterpolate(v, n), ExactDecay(v, n));
  }

  lemma CltiErrorInTable(load: nat, periods: nat)
    requires load < TWO64 && periods < 2016 && periods % 32 <= 28
    ensures CltiWithin(load, periods)
  {
    CltiAndExactForm(load, periods);
    var v, n := Shr(load, periods / 32), periods % 32;
    if n > 0 {
      hide CltiInterpolate;
      hide CltiDecay;
      hide ExactDecay;
      CltiErrorWithinHalfLife(v, n);
    }
  }

  /** Beyond the last table entry the code halves instead of interpolating. */
  lemma BeyondTable(v: nat, n: nat)
    requires v <= 14 && 28 < n < 32
    ensures CltiInterpolate(v, n) == v * 17867 / 32768 / 2
    ensures v * 0x82cd8698 / TWO32 <= ExactDecay(v, n) <= v * 0x88980e80 / TWO32
  {
    MulShr15(v, 17867);
    hide MulShr;
    ExactWithinHalfLife(v, n);
    hide ExactDecay;
    assert n == 29 || n == 30 || n == 31;
    assert 0x82cd8698 <= YN_INV[n] <= 0x88980e80;
    MulMono(0x82cd8698, YN_INV[n], v);
    MulMono(YN_INV[n], 0x88980e80, v);
    DivMono(v * 0x82cd8698, v * YN_INV[n], TWO32);
    DivMono(v * YN_INV[n], v * 0x88980e80, TWO32);
  }

  /** A load that is 14 after its half-lives decays to 7 exactly and to 3 in CLTI. */
  lemma CltiFailsBeyondTable(periods: nat) returns (load: nat)
    requires periods % 32 > 28 && periods < 1952
    ensures load < TWO64 && !CltiWithin(load, periods)
  {
    hide CltiInterpolate;
    hide CltiDecay;
    hide ExactDecay;
    var k := periods / 32;
    load := 14 * Pow2(k);
    Pow2Mono(k, 60);
    Pow2Of60();
    DivUnique(load, Pow2(k), 14);
    assert Shr(load, k) == 14;
    hide Shr;
    CltiAndExactForm(load, periods);
    BeyondTable(14, periods % 32);
  }

  lemma Pow2Of60()
    ensures Pow2(60) == 0x1000_0000_0000_0000 && Pow2(61) == 0x2000_0000_0000_0000
  {
    Pow2Of63();
    assert Pow2(63) == 8 * Pow2(60);
  }

  /** From 61 half-lives on, at most 7 is left, and the two decays of that differ by at most 3. */
  lemma CltiHoldsNearZero(load: nat, periods: nat)
    requires load < TWO64 && 1952 <= periods < 2016 && periods % 32 > 28
    ensures CltiWithin(load, periods)
  {
    var k := periods / 32;
    Pow2Mono(61, k);
    Pow2Of60();
    DivBounds(load, Pow2(k));
    MulMono(Pow2(61), Pow2(k), Shr(load, k));
    assert Shr(load, k) <= 7;
    CltiAndExactForm(load, periods);
    hide CltiDecay;
    hide ExactDecay;
    BeyondTable(Shr(load, k), periods % 32);
  }

  /**
   * The interpolation bound of CLTI holds of every u64 load exactly for the period
   * counts whose remainder modulo 32 is at most 28, or that leave nothing worth
   * interpolating.
   */
  lemma CltiErrorBound(periods: nat)
    ensures (forall load: nat :: load < TWO64 ==> CltiWithin(load, periods))
       <==> (periods % 32 <= 28 || periods >= 1952)
  {
    if periods % 32 <= 28 || periods >= 1952 {
      forall load: nat | load < TWO64
        ensures CltiWithin(load, periods)
      {
        if periods < 2016 {
          if periods % 32 <= 28 {
            CltiErrorInTable(load, periods);
          } else {
            CltiHoldsNearZero(load, periods);
          }
        }
      }
    } else {
      var load := CltiFailsBeyondTable(periods);
    }
  }

  /** The relative error of each APAF state, as a fraction. */
  function StateError(state: ApafState): real {
    match state case Tight => 0.00034 case Medium => 0.00214 case Loose => 0.03034
  }

  /** A factor within the error of a state of the table factor y, and not below it in LOOSE. */
  ghost predicate FactorWithin(f: real, y: real, state: ApafState) {
    && (1.0 - StateError(state)) * y <= f <= (1.0 + StateError(state)) * y
    && (state == Loose ==> y <= f)
  }

  /** y^n in Q0.32, as a real. */
  function ExactFactor(n: nat): (y: real)
    requires n < 32
    ensures 0.5 < y < 1.0
  {
    TableEntry(n);
    YN_INV[n] as real / 4294967296.0
  }

  lemma TightFactor(n: nat)
    requires 0 < n < 32
    ensures FactorWithin(ApafFactor(n, Tight), ExactFactor(n), Tight)
  {
    if n > 16 {
      TableFactorError(n);
    } else {
      assert n in {1, 2, 3, 4, 5, 6, 7, 8, 9, 10, 11, 12, 13, 14, 15, 16};
    }
  }

  lemma TableFactorError(n: nat)
    requires n < 32
    ensures ExactFactor(n) <= TableFactor(n) <= (1.0 + 0.00034) * ExactFactor(n)
  {
    TableEntry(n);
  }

  lemma MediumFactorEarly(n: nat)
    requires 1 <= n < 9
    ensures FactorWithin(ApafFactor(n, Medium), ExactFactor(n), Medium)
  {
    assert n in {1, 2, 3, 4, 5, 6, 7, 8};
  }

  lemma MediumFactorMiddle(n: nat)
    requires 9 <= n < 17
    ensures FactorWithin(ApafFactor(n, Medium), ExactFactor(n), Medium)
  {
    assert n in {9, 10, 11, 12, 13, 14, 15, 16};
  }

  lemma MediumFactorLate(n: nat)
    requires 17 <= n < 25
    ensures FactorWithin(ApafFactor(n, Medium), ExactFactor(n), Medium)
  {
    assert n in {17, 18, 19, 20, 21, 22, 23, 24};
  }

  lemma MediumFactorLast(n: nat)
    requires 25 <= n < 32
    ensures FactorWithin(ApafFactor(n, Medium), ExactFactor(n), Medium)
  {
    assert n in {25, 26, 27, 28, 29, 30, 31};
  }

  lemma MediumFactor(n: nat)
    requires 0 < n < 32
    ensures FactorWithin(ApafFactor(n, Medium), ExactFactor(n), Medium)
  {
    hide *;
    if n < 9 {
      MediumFactorEarly(n);
    } else if n < 17 {
      MediumFactorMiddle(n);
    } else if n < 25 {
      MediumFactorLate(n);
    } else {
      MediumFactorLast(n);
    }
  }

  lemma LooseFactorEarly(n: nat)
    requires 1 <= n < 9
    ensures FactorWithin(ApafFactor(n, Loose), ExactFactor(n), Loose)
  {
    TableFactorError(n);
    assert n in {1, 2, 3, 4, 5, 6, 7, 8};
  }

  lemma LooseFactorMiddle(n: nat)
    requires 9 <= n < 17
    ensures FactorWithin(ApafFactor(n, Loose), ExactFactor(n), Loose)
  {
    TableFactorError(n);
    assert n in {9, 10, 11, 12, 13, 14, 15, 16};
  }

  lemma LooseFactorLate(n: nat)
    requires 17 <= n < 25
    ensures FactorWithin(ApafFactor(n, Loose), ExactFactor(n), Loose)
  {
    TableFactorError(n);
    assert n in {17, 18, 19, 20, 21, 22, 23, 24};
  }

  lemma LooseFactorLast(n: nat)
    requires 25 <= n < 32
    ensures FactorWithin(ApafFactor(n, Loose), ExactFactor(n), Loose)
  {
    TableFactorError(n);
    assert n in {25, 26, 27, 28, 29, 30, 31};
  }

  lemma LooseFactor(n: nat)
    requires 0 < n < 32
    ensures FactorWithin(ApafFactor(n, Loose), ExactFactor(n), Loose)
  {
    hide *;
    if n < 9 {
      LooseFactorEarly(n);
    } else if n < 17 {
      LooseFactorMiddle(n);
    } else if n < 25 {
      LooseFactorLate(n);
    } else {
      LooseFactorLast(n);
    }
  }

  /** Truncated products by factors that are within eps of each other. */
  lemma TruncatedProducts(v: real, f: real, y: real, eps: real, a: int, e: int)
    requires 0.0 <= v && 0.0 < y && 0.0 <= eps < 0.5
    requires (1.0 - eps) * y <= f <= (1.0 + eps) * y
    requires a as real <= v * f < a as real + 1.0 && e as real <= v * y < e as real + 1.0
    ensures (1.0 - eps) * e as real - 2.0 <= a as real <= (1.0 + eps) * e as real + 2.0
    ensures y <= f ==> e <= a
  {
    TruncatedBelow(v, f, y, 1.0 - eps, e as real);
    TruncatedAbove(v, f, y, 1.0 + eps, e as real);
    if y <= f {
      RealProducts(v, y, f);
    }
  }

  lemma TruncatedBelow(v: real, f: real, y: real, c: real, e: real)
    requires 0.0 <= v && 0.0 <= c && c * y <= f && e <= v * y
    ensures c * e <= v * f
  {
    RealProducts(v, c * y, f);
    assert v * (c * y) == c * (v * y);
    RealProducts(c, e, v * y);
  }

  lemma TruncatedAbove(v: real, f: real, y: real, c: real, e: real)
    requires 0.0 <= v && 0.0 <= c && f <= c * y && v * y <= e + 1.0
    ensures v * f <= c * e + c
  {
    RealProducts(v, f, c * y);
    assert v * (c * y) == c * (v * y);
    RealProducts(c, v * y, e + 1.0);
    assert c * (e + 1.0) == c * e + c;
  }

  lemma RealProducts(c: real, a: real, b: real)
    requires 0.0 <= c && a <= b
    ensures c * a <= c * b
  {}

  /** The exact decay within a half-life, as the truncation of a real product. */
  lemma ExactTruncates(v: nat, n: nat)
    requires v < TWO64 && 0 < n < 32
    ensures ExactDecay(v, n) as real <= v as real * ExactFactor(n) < ExactDecay(v, n) as real + 1.0
  {
    hide ExactDecay;
    ExactWithinHalfLife(v, n);
    RealQuotient(v, YN_INV[n]);
  }

  lemma RealQuotient(v: nat, t: nat)
    ensures (v * t / TWO32) as real <= v as real * (t as real / 4294967296.0) < (v * t / TWO32) as real + 1.0
  {
    DivBounds(v * t, TWO32);
    assert v as real * t as real == (v * t) as real;
    assert v as real * (t as real / 4294967296.0) == (v as real * t as real) / 4294967296.0;
  }

  /** APAF against exact, in state s: d within the state's error of e, plus 2. */
  ghost predicate ApafWithin(d: nat, e: nat, state: ApafState) {
    && (1.0 - StateError(state)) * e as real - 2.0 <= d as real <= (1.0 + StateError(state)) * e as real + 2.0
    && (state == Loose ==> e <= d)
  }

  lemma AllFactors(n: nat, state: ApafState)
    requires 0 < n < 32
    ensures FactorWithin(ApafFactor(n, state), ExactFactor(n), state)
  {
    hide *;
    match state {
      case Tight => TightFactor(n);
      case Medium => MediumFactor(n);
      case Loose => LooseFactor(n);
    }
  }

  lemma ApafErrorWithinHalfLife(v: nat, n: nat, state: ApafState)
    requires v < TWO64 && 0 < n < 32
    ensures ApafWithin(ScaledLoad(v, ApafFactor(n, state)), ExactDecay(v, n), state)
  {
    hide ExactDecay;
    hide ExactFactor;
    hide ApafFactor;
    hide ScaledLoad;
    AllFactors(n, state);
    ExactTruncates(v, n);
    var f := ApafFactor(n, state);
    TruncatedProducts(v as real, f, ExactFactor(n), StateError(state), ScaledLoad(v, f), ExactDecay(v, n));
  }

  /**
   * In real arithmetic, the APAF decay of any u64 load over any number of periods is
   * within 0.034% (TIGHT), 0.214% (MEDIUM) and 3.034% (LOOSE) of the exact one, plus 2,
   * and in LOOSE it is never below it.
   */
  lemma ApafErrorBound(load: nat, periods: nat, state: ApafState)
    requires load < TWO64
    ensures ApafWithin(ApafDecay(load, periods, state), ExactDecay(load, periods), state)
  {
    if 0 < periods < 2016 {
      var v, n := Shr(load, periods / 32), periods % 32;
      assert ExactDecay(load, periods) == ExactDecay(v, n) by {
        CltiAndExactForm(load, periods);
      }
      hide ExactDecay;
      hide ApafFactor;
      if n > 0 {
        ApafErrorWithinHalfLife(v, n, state);
      } else {
        ExactNoPeriods(v);
      }
    }
  }

  lemma ExactNoPeriods(v: nat)
    ensures ExactDecay(v, 0) == v
  {}

  /** The errors of the APAF polynomials are as large as that: each bound is nearly attained. */
  lemma ApafErrorsAttained()
    ensures ApafFactor(16, Tight) > 1.00033 * ExactFactor(16)
    ensures ApafFactor(31, Medium) > 1.0021 * ExactFactor(31)
    ensures ApafFactor(17, Loose) > 1.0303 * ExactFactor(17)
  {}
}
