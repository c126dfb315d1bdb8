/**
 * The kernel's fixed-point scaling of a time by a weight ratio (__calc_delta of
 * fair.c), its cached inverse, and the wall-clock slices computed with it.
 */
module WeightScaling {
  import opened Arithmetic
  import opened Constants
  import opened Decay
  import opened NewtonReciprocal

  const WMULT_CONST: nat := 0xffff_ffff
  const SCALED_NICE_0_LOAD: nat := 0x10_0000

  /** scale_load_down of a 64-bit kernel. */
  function ScaleDown(w: nat): nat {
    if w == 0 then 0 else Max(2, w / 1024)
  }

  /** The inverse __update_inv_weight computes for a load of this weight. */
  function InvWeight(weight: nat): nat {
    var w := ScaleDown(weight);
    if w >= WMULT_CONST then 1
    else if w == 0 then WMULT_CONST
    else WMULT_CONST / w
  }

  /** fls: the position of the highest set bit, counted from 1. */
  function Fls(x: nat): nat {
    if x == 0 then 0 else FloorLog(x) + 1
  }

  /** How far a factor has to be shifted to fit 32 bits. */
  function Excess(fact: nat): nat {
    Fls(fact / TWO32)
  }

  /** A factor shifted to fit 32 bits. */
  function Normalised(fact: nat): nat {
    Shr(fact, Excess(fact)) % TWO32
  }

  /** The factor after the first normalisation, the multiplication and the second one. */
  function Factor(weight: nat, inv: nat): nat {
    Normalised(Normalised(ScaleDown(weight)) * inv)
  }

  /** The final shift, which the code keeps in an int. */
  function Shift(weight: nat, inv: nat): int {
    32 - Excess(ScaleDown(weight)) - Excess(Normalised(ScaleDown(weight)) * inv)
  }

  /** __calc_delta with a fresh inverse, where its shift is not negative. */
  function CalcDelta(delta: nat, weight: nat, load: nat): nat
    requires Shift(weight, InvWeight(load)) >= 0
  {
    MulShr(delta, Factor(weight, InvWeight(load)), Shift(weight, InvWeight(load)))
  }

  /** struct load_weight: a weight and its lazily computed inverse, 0 when out of date. */
  class LoadWeight {
    var weight: nat
    var invWeight: nat

    ghost predicate Valid()
      reads this
    {
      invWeight == 0 || invWeight == InvWeight(weight)
    }

    constructor (w: nat)
      ensures Valid() && weight == w
    {
      weight := w;
      invWeight := 0;
    }

    method UpdateLoadAdd(inc: nat)
      modifies this
      ensures Valid() && weight == old(weight) + inc
    {
      weight := weight + inc;
      invWeight := 0;
    }

    method UpdateInvWeight()
      requires Valid()
      modifies this`invWeight
      ensures invWeight == InvWeight(weight)
    {
      if invWeight != 0 {
        return;
      }
      var w := ScaleDown(weight);
      if w >= WMULT_CONST {
        invWeight := 1;
      } else if w == 0 {
        invWeight := WMULT_CONST;
      } else {
        DivGe(WMULT_CONST, w, 0);
        invWeight := WMULT_CONST / w;
      }
    }

    /** __calc_delta on this load; the cached inverse never changes the result. */
    method Scale(delta: nat, w: nat) returns (r: nat)
      requires Valid() && Shift(w, InvWeight(weight)) >= 0
      modifies this`invWeight
      ensures Valid() && r == CalcDelta(delta, w, weight)
    {
      hide InvWeight;
      var fact := ScaleDown(w);
      var factHi := fact / TWO32;
      var shift := 32;
      UpdateInvWeight();
      if factHi != 0 {
        var fs := Fls(factHi);
        shift := shift - fs;
        fact := Shr(fact, fs);
      }
      ShiftByZero(fact);
      fact := fact % TWO32 * invWeight;
      factHi := fact / TWO32;
      ShiftByZero(fact);
      if factHi != 0 {
        var fs := Fls(factHi);
        shift := shift - fs;
        fact := Shr(fact, fs);
      }
      r := MulShr(delta, fact % TWO32, shift);
    }
  }

  lemma ShiftByZero(a: nat)
    ensures Shr(a, 0) == a
  {}

  /** Shifting by the excess gives a 32-bit number, and no more than needed is shifted. */
  lemma ExcessFits(fact: nat)
    ensures Shr(fact, Excess(fact)) < TWO32
    ensures fact < TWO32 ==> Excess(fact) == 0
  {
    if fact < TWO32 {
      ShiftByZero(fact);
    } else {
      var k := FloorLog(fact / TWO32);
      DivBounds(fact, TWO32);
      MulMono(fact / TWO32 + 1, Pow2(k + 1), TWO32);
      DivBounds(fact, Pow2(k + 1));
      assert Pow2(k + 1) * TWO32 == TWO32 * Pow2(k + 1);
      MulMono(TWO32, Shr(fact, k + 1), Pow2(k + 1));
    }
  }

  lemma NormalisedSmall(a: nat)
    requires a < TWO32
    ensures Excess(a) == 0 && Normalised(a) == a
  {
    ExcessFits(a);
    ShiftByZero(a);
  }

  /** A fact below 2^(32 + k) is shifted by at most k. */
  lemma ExcessAtMost(fact: nat, k: nat)
    ensures fact < TWO32 * Pow2(k) <==> Excess(fact) <= k
  {
    if fact / TWO32 > 0 {
      var l := FloorLog(fact / TWO32);
      DivBounds(fact, TWO32);
      if l + 1 <= k {
        Pow2Mono(l + 1, k);
        MulMono(fact / TWO32 + 1, Pow2(k), TWO32);
      } else {
        Pow2Mono(k, l);
        MulMono(Pow2(k), fact / TWO32, TWO32);
      }
    } else {
      MulMono(1, Pow2(k), TWO32);
    }
  }

  /** The fresh inverse is below the reciprocal exactly up to a scaled divisor of 2^32. */
  lemma InverseBelow(load: nat)
    requires load > 0
    ensures 0 < InvWeight(load) < TWO32
    ensures InvWeight(load) * ScaleDown(load) <= TWO32 <==> ScaleDown(load) <= TWO32
    ensures ScaleDown(load) < TWO32 ==> InvWeight(load) * ScaleDown(load) < TWO32
    ensures ScaleDown(load) >= TWO32 ==> InvWeight(load) == 1
  {
    var w := ScaleDown(load);
    assert w > 0;
    DivBounds(WMULT_CONST, w);
    DivGe(WMULT_CONST, w, 1);
    if w < WMULT_CONST {
      MulMono(1, w, WMULT_CONST / w);
    }
  }

  /** For NICE_0_LOAD the shift never falls below 22, whatever the divisor. */
  lemma ShiftForNiceZero(load: nat)
    ensures Shift(SCALED_NICE_0_LOAD, InvWeight(load)) >= 22
  {
    if load > 0 {
      InverseBelow(load);
    }
    var inv := InvWeight(load);
    hide InvWeight;
    ShiftByZero(1024);
    ExcessFits(1024);
    assert Pow2(10) == 1024;
    ExcessAtMost(1024 * inv, 10);
  }

  /** For a weight that is part of the divisor the shift only loses what the weight itself exceeds 32 bits by. */
  lemma ShiftForPart(weight: nat, load: nat)
    requires load > 0 && ScaleDown(weight) <= ScaleDown(load)
    ensures Shift(weight, InvWeight(load)) == 32 - Excess(ScaleDown(weight))
  {
    InverseBelow(load);
    var a, w, inv := ScaleDown(weight), ScaleDown(load), InvWeight(load);
    hide InvWeight;
    hide ScaleDown;
    ExcessFits(a);
    if a < TWO32 {
      ShiftByZero(a);
      if w < TWO32 {
        MulMono(a, w, inv);
      }
    }
    ExcessFits(Normalised(a) * inv);
  }

  /** scale_load_down takes ten bits off a 64-bit weight. */
  lemma ScaleDownFits(weight: nat)
    requires weight < TWO64
    ensures ScaleDown(weight) < TWO32 * 4194304
  {}

  /**
   * The two cases the source comment distinguishes: with w <= W the shift is at least
   * 10 for every 64-bit weight, and at least 22 exactly when the scaled weight is below 2^42.
   */
  lemma ShiftBounds(weight: nat, load: nat)
    requires load > 0 && weight < TWO64 && ScaleDown(weight) <= ScaleDown(load)
    ensures Shift(weight, InvWeight(load)) >= 10
    ensures Shift(weight, InvWeight(load)) >= 22 <==> ScaleDown(weight) < TWO32 * 1024
  {
    ShiftForPart(weight, load);
    ScaleDownFits(weight);
    var a := ScaleDown(weight);
    hide ScaleDown;
    hide Shift;
    Pow2At32();
    assert Pow2(10) == 1024;
    ExcessAtMost(a, 10);
    ExcessAtMost(a, 22);
  }

  /** What the truncations leave of delta * a * inv / 2^32. */
  lemma CalcDeltaBelowProduct(delta: nat, weight: nat, load: nat)
    requires Shift(weight, InvWeight(load)) >= 0
    ensures CalcDelta(delta, weight, load) * TWO32 <= delta * (ScaleDown(weight) * InvWeight(load))
  {
    hide InvWeight;
    hide ScaleDown;
    hide Excess;
    hide Normalised;
    hide MulShr;
    var a, inv := ScaleDown(weight), InvWeight(load);
    var low := Normalised(a);
    var f, s := Factor(weight, inv), Shift(weight, inv);
    NormalisedTimes(a);
    NormalisedTimes(low * inv);
    MulShrTimes(delta, f, s);
    ThreePowers(s, Excess(a), Excess(low * inv));
    var p1, p2, ps := Pow2(Excess(a)), Pow2(Excess(low * inv)), Pow2(s);
    var r := CalcDelta(delta, weight, load);
    hide *;
    ProductChain(delta, a, inv, low, f, r, p1, p2, ps);
  }

  lemma NormalisedTimes(a: nat)
    ensures Normalised(a) * Pow2(Excess(a)) <= a
  {
    var s, p := Shr(a, Excess(a)), Pow2(Excess(a));
    DivBounds(a, p);
    hide Excess;
    MulMono(s % TWO32, s, p);
  }

  lemma MulShrTimes(a: nat, b: nat, k: nat)
    ensures MulShr(a, b, k) * Pow2(k) <= a * b
  {
    var s := Shr(a * b, k);
    DivBounds(a * b, Pow2(k));
    MulMono(s % TWO64, s, Pow2(k));
  }

  lemma ThreePowers(s: nat, e1: nat, e2: nat)
    requires s + e1 + e2 == 32
    ensures Pow2(s) * (Pow2(e2) * Pow2(e1)) == TWO32
  {
    hide Pow2;
    Pow2Sum(e2, e1);
    Pow2Sum(s, e2 + e1);
    Pow2At32();
  }

  lemma ProductChain(delta: nat, a: nat, inv: nat, low: nat, f: nat, r: nat, p1: nat, p2: nat, ps: nat)
    requires low * p1 <= a && f * p2 <= low * inv && r * ps <= delta * f
    requires ps * (p2 * p1) == TWO32
    ensures r * TWO32 <= delta * (a * inv)
  {
    MulMono(r * ps, delta * f, p2 * p1);
    assert (r * ps) * (p2 * p1) == r * (ps * (p2 * p1));
    assert (delta * f) * (p2 * p1) == delta * ((f * p2) * p1);
    MulMono(f * p2, low * inv, p1);
    assert (low * inv) * p1 == (low * p1) * inv;
    MulMono(low * p1, a, inv);
    MulMono((f * p2) * p1, a * inv, delta);
  }

  /** The scaled time never exceeds delta * w / W. */
  lemma CalcDeltaNeverExceeds(delta: nat, weight: nat, load: nat)
    requires load > 0 && ScaleDown(load) <= TWO32 && Shift(weight, InvWeight(load)) >= 0
    ensures CalcDelta(delta, weight, load) * ScaleDown(load) <= delta * ScaleDown(weight)
  {
    InverseBelow(load);
    CalcDeltaBelowProduct(delta, weight, load);
    var r, a, w, inv := CalcDelta(delta, weight, load), ScaleDown(weight), ScaleDown(load), InvWeight(load);
    hide *;
    RatioChain(r, delta, a, w, inv);
  }

  lemma RatioChain(r: nat, delta: nat, a: nat, w: nat, inv: nat)
    requires r * 4294967296 <= delta * (a * inv) && inv * w <= 4294967296
    ensures r * w <= delta * a
  {
    MulMono(r * 4294967296, delta * (a * inv), w);
    assert delta * (a * inv) * w == (delta * a) * (inv * w);
    MulMono(inv * w, 4294967296, delta * a);
    assert r * 4294967296 * w == (r * w) * 4294967296;
  }

  /** The excess of a product that a weight below 2^32 makes with the inverse. */
  lemma SmallWeightFactor(weight: nat, inv: nat)
    requires ScaleDown(weight) < TWO32
    ensures var x := ScaleDown(weight) * inv;
            && Shift(weight, inv) == 32 - Excess(x) && Factor(weight, inv) == Shr(x, Excess(x))
            && x < (Factor(weight, inv) + 1) * Pow2(Excess(x)) && Factor(weight, inv) * Pow2(Excess(x)) <= x
  {
    NormalisedSmall(ScaleDown(weight));
    var x := ScaleDown(weight) * inv;
    ExcessFits(x);
    hide ScaleDown;
    hide Excess;
    DivBounds(x, Pow2(Excess(x)));
    ModSmall(Shr(x, Excess(x)), TWO32);
  }

  /**
   * From below: the scaled time of a weight below 2^32 falls short of delta * w / W by less than one
   * unit, the truncation of the inverse, and the 2^e that the second normalisation truncates.
   */
  lemma CalcDeltaAtLeast(delta: nat, weight: nat, load: nat)
    requires load > 0 && ScaleDown(load) < TWO32 && ScaleDown(weight) < TWO32
    requires Shift(weight, InvWeight(load)) >= 0 && delta * ScaleDown(weight) < TWO64 * ScaleDown(load)
    ensures var a, d, e := ScaleDown(weight), ScaleDown(load), Excess(ScaleDown(weight) * InvWeight(load));
            (CalcDelta(delta, weight, load) + 1) * d * TWO32 + delta * d * (a + Pow2(e) - 1) > delta * a * TWO32
  {
    hide *;
    var f, q, p, ps := CalcDeltaParts(delta, weight, load);
    TruncatedChain(delta, f, ScaleDown(weight), InvWeight(load), ScaleDown(load), q,
                   CalcDelta(delta, weight, load), p, ps);
  }

  /** The truncations of one scaling, step by step. */
  lemma CalcDeltaParts(delta: nat, weight: nat, load: nat) returns (f: nat, q: nat, p: nat, ps: nat)
    requires load > 0 && ScaleDown(load) < TWO32 && ScaleDown(weight) < TWO32
    requires Shift(weight, InvWeight(load)) >= 0
    ensures var a, d, inv := ScaleDown(weight), ScaleDown(load), InvWeight(load);
            && d > 0 && p == Pow2(Excess(a * inv)) > 0 && ps > 0 && ps * p == TWO32
            && q == delta * f / ps && CalcDelta(delta, weight, load) == q % TWO64
            && f * p <= a * inv < (f + 1) * p && TWO32 - d <= inv * d <= TWO32
  {
    var a, d, inv := ScaleDown(weight), ScaleDown(load), InvWeight(load);
    InverseBelow(load);
    InverseAtLeast(load);
    SmallWeightFactor(weight, inv);
    var e := Excess(a * inv);
    f := Factor(weight, inv);
    p, ps := Pow2(e), Pow2(32 - e);
    q := Shr(delta * f, 32 - e);
    PowersOf32(e);
    hide Factor;
    hide Excess;
    hide InvWeight;
  }

  lemma TruncatedChain(delta: nat, f: nat, a: nat, inv: nat, d: nat, q: nat, r: nat, p: nat, ps: nat)
    requires d > 0 && p > 0 && ps > 0 && ps * p == TWO32 && q == delta * f / ps && r == q % TWO64
    requires f * p <= a * inv < (f + 1) * p && TWO32 - d <= inv * d <= TWO32 && delta * a < TWO64 * d
    ensures (r + 1) * d * TWO32 + delta * d * (a + p - 1) > delta * a * TWO32
  {
    DivBounds(delta * f, ps);
    assert (q + 1) * ps == q * ps + ps;
    NoOverflow(delta, f, a, inv, d, q, p, ps);
    ModSmall(q, TWO64);
    ShortfallChain(delta, f, a, inv, d, q, p, ps);
  }

  lemma PowersOf32(e: nat)
    requires e <= 32
    ensures Pow2(32 - e) * Pow2(e) == TWO32
  {
    hide Pow2;
    Pow2Sum(32 - e, e);
    Pow2At32();
  }

  /** The truncated inverse is less than one unit short. */
  lemma InverseAtLeast(load: nat)
    requires load > 0 && ScaleDown(load) < TWO32
    ensures InvWeight(load) * ScaleDown(load) >= TWO32 - ScaleDown(load)
  {
    var d := ScaleDown(load);
    assert d > 0;
    DivBounds(WMULT_CONST, d);
  }

  lemma NoOverflow(delta: nat, f: nat, a: nat, inv: nat, d: nat, q: nat, p: nat, ps: nat)
    requires d > 0 && ps * p == 4294967296 && f * p <= a * inv && inv * d <= 4294967296
    requires q * ps <= delta * f && delta * a < 18446744073709551616 * d
    ensures q < 18446744073709551616
  {
    MulMono(q * ps, delta * f, p);
    assert (q * ps) * p == q * 4294967296 && (delta * f) * p == delta * (f * p);
    MulMono(f * p, a * inv, delta);
    RatioChain(q, delta, a, d, inv);
    MulMono(18446744073709551616, q, d);
  }

  lemma ShortfallChain(delta: nat, f: nat, a: nat, inv: nat, d: nat, q: nat, p: nat, ps: nat)
    requires d > 0 && p > 0 && ps * p == 4294967296 && a * inv < (f + 1) * p && inv * d >= 4294967296 - d
    requires delta * f < (q + 1) * ps
    ensures (q + 1) * d * 4294967296 + delta * d * (a + p - 1) > delta * a * 4294967296
  {
    QuotientAbove(delta, f, a * inv, q, p, ps);
    InverseChain(delta, a, inv, d, p);
    CombineShortfall(delta * (a * inv - (p - 1)), q + 1, d, delta * d * (a + p - 1), delta * a * 4294967296);
  }

  lemma CombineShortfall(y: int, q: nat, d: nat, s: int, t: int)
    requires d > 0 && y < q * 4294967296 && y * d + s >= t
    ensures q * d * 4294967296 + s > t
  {
    MulMono(y + 1, q * 4294967296, d);
    assert (y + 1) * d == y * d + d;
  }

  lemma QuotientAbove(delta: nat, f: nat, x: nat, q: nat, p: nat, ps: nat)
    requires p > 0 && ps * p == 4294967296 && x < (f + 1) * p && delta * f < (q + 1) * ps
    ensures delta * (x - (p - 1)) < (q + 1) * 4294967296
  {
    MulMono(delta * f + 1, (q + 1) * ps, p);
    assert ((q + 1) * ps) * p == (q + 1) * 4294967296 && (delta * f + 1) * p == delta * (f * p) + p;
    assert (f + 1) * p == f * p + p;
    MulMono(x - (p - 1), f * p, delta);
  }

  lemma InverseChain(delta: nat, a: nat, inv: nat, d: nat, p: nat)
    requires p > 0 && inv * d >= 4294967296 - d
    ensures delta * (a * inv - (p - 1)) * d + delta * d * (a + p - 1) >= delta * a * 4294967296
  {
    var da, dd := delta * a, delta * d;
    assert delta * (a * inv - (p - 1)) * d == da * (inv * d) - dd * (p - 1) by {
      assert delta * (a * inv - (p - 1)) == da * inv - delta * (p - 1);
      assert (da * inv - delta * (p - 1)) * d == da * (inv * d) - dd * (p - 1);
    }
    assert dd * (a + p - 1) == dd * a + dd * (p - 1);
    assert dd * a == da * d;
    MulMono(4294967296 - d, inv * d, da);
    assert da * (4294967296 - d) == da * 4294967296 - da * d;
  }

  /** No scaled time of this divisor exceeds the exact ratio. */
  ghost predicate NeverExceeds(load: nat) {
    forall delta: nat, weight: nat :: Shift(weight, InvWeight(load)) >= 0 ==>
      CalcDelta(delta, weight, load) * ScaleDown(load) <= delta * ScaleDown(weight)
  }

  /** Above 2^32 the inverse is clamped to one unit, which is too much. */
  lemma ClampedInverseExceeds(load: nat) returns (weight: nat)
    requires ScaleDown(load) > TWO32
    ensures Shift(weight, InvWeight(load)) >= 0
    ensures CalcDelta(TWO32, weight, load) * ScaleDown(load) > TWO32 * ScaleDown(weight)
  {
    weight := 0xffff_ffff * 1024;
    InverseBelow(load);
    var w := ScaleDown(load);
    assert ScaleDown(weight) == 0xffff_ffff;
    hide ScaleDown;
    hide InvWeight;
    NormalisedSmall(0xffff_ffff);
    Pow2At32();
    assert Shift(weight, 1) == 32 && Factor(weight, 1) == 0xffff_ffff;
    hide Shift;
    hide Factor;
    MulShr32Exact();
    assert CalcDelta(TWO32, weight, load) == 0xffff_ffff;
  }

  lemma MulShr32Exact()
    ensures MulShr(TWO32, 0xffff_ffff, 32) == 0xffff_ffff
  {
    MulShr32(TWO32, 0xffff_ffff);
  }

  /** The upper bound holds of every delta and weight exactly for scaled divisors up to 2^32. */
  lemma NeverExceedsIff(load: nat)
    requires load > 0
    ensures NeverExceeds(load) <==> ScaleDown(load) <= TWO32
  {
    hide CalcDelta;
    hide ScaleDown;
    hide Shift;
    hide InvWeight;
    if ScaleDown(load) <= TWO32 {
      forall delta: nat, weight: nat | Shift(weight, InvWeight(load)) >= 0
        ensures CalcDelta(delta, weight, load) * ScaleDown(load) <= delta * ScaleDown(weight)
      {
        CalcDeltaNeverExceeds(delta, weight, load);
      }
    } else {
      var weight := ClampedInverseExceeds(load);
    }
  }

  /** A zero divisor, which the source gives the largest inverse, scales like a divisor of one. */
  lemma ZeroDivisorIsOne(delta: nat)
    requires 0 < delta < 0x8000_0000
    ensures ScaleDown(1024) == 2 && Shift(1024, InvWeight(0)) >= 0 && CalcDelta(delta, 1024, 0) == 2 * delta - 1
  {
    assert InvWeight(0) == 0xffff_ffff && ScaleDown(1024) == 2;
    hide InvWeight;
    hide ScaleDown;
    NormalisedSmall(2);
    var x := 0x1_ffff_fffe;
    FloorLogUnique(1, 0);
    assert Pow2(0) == 1 && Pow2(1) == 2;
    assert x / TWO32 == 1 && Excess(x) == 1;
    assert Normalised(x) == 0xffff_ffff;
    Pow2At32();
    assert Pow2(31) == 0x8000_0000;
    assert Factor(1024, 0xffff_ffff) == 0xffff_ffff && Shift(1024, 0xffff_ffff) == 31;
    hide Factor;
    hide Shift;
    DivUnique(delta * 0xffff_ffff, 0x8000_0000, 2 * delta - 1);
    ModSmall(2 * delta - 1, TWO64);
  }
}
