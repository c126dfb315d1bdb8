/**
 * The vruntime charged for a stretch of execution, delta * NICE_0_LOAD / weight,
 * as the exact tick and the three approximate ticks compute it.
 */
module Charge {
  import opened Arithmetic
  import opened Constants
  import opened Decay
  import opened NewtonReciprocal

  /** The error budget the APAF controller has settled on. */
  datatype ApafState = Tight | Medium | Loose

  /** exact_calc_delta_fair. */
  function ExactCharge(delta: nat, weight: nat): nat
    requires weight < TWO32
  {
    if weight == NICE_0_LOAD then delta
    else if weight == 0 then 0
    else if delta >= TWO32 then
      MulShr(delta / 2, TWO32 / weight % TWO32, 22) * 2 % TWO64
    else
      MulShr(delta, TWO32 / weight % TWO32, 22)
  }

  /** The charge by an iterated reciprocal of rep, which stands for weight. */
  function ReciprocalCharge(delta: nat, weight: nat, rep: nat, iterations: nat): nat
    requires rep < TWO32
  {
    if weight == NICE_0_LOAD then delta
    else if weight == 0 then 0
    else MulShr(delta, Reciprocal(rep, iterations) % TWO32, 22)
  }

  /** bsa_vruntime_delta: one Newton iteration. */
  function BsaCharge(delta: nat, weight: nat): nat
    requires weight < TWO32
  {
    ReciprocalCharge(delta, weight, weight, 1)
  }

  /** apaf_vruntime_delta: one iteration in LOOSE, two otherwise. */
  function ApafCharge(delta: nat, weight: nat, state: ApafState): nat
    requires weight < TWO32
  {
    ReciprocalCharge(delta, weight, weight, if state == Loose then 1 else 2)
  }

  method BsaVruntimeDelta(delta: nat, weight: nat) returns (d: nat)
    requires weight < TWO32
    ensures d == BsaCharge(delta, weight)
  {
    if weight == NICE_0_LOAD {
      return delta;
    }
    if weight == 0 {
      return 0;
    }
    var inv := BsaNewtonReciprocal(weight, 1);
    return MulShr(delta, inv % TWO32, 22);
  }

  method ApafVruntimeDelta(delta: nat, weight: nat, state: ApafState) returns (d: nat)
    requires weight < TWO32
    ensures d == ApafCharge(delta, weight, state)
  {
    if weight == NICE_0_LOAD {
      return delta;
    }
    if weight == 0 {
      return 0;
    }
    var iters := match state
      case Tight => 2
      case Loose => 1
      case Medium => 2;
    var inv := BsaNewtonReciprocal(weight, iters);
    return MulShr(delta, inv % TWO32, 22);
  }

  /** Distance of a weight from the representative of class c. */
  function ClassDistance(w: nat, c: nat): nat
    requires c < 8
  {
    Abs(w - CLTI_WEIGHT_CLASS[c])
  }

  /** The first of the classes 0..n-1 whose representative is nearest to w. */
  function BestClass(w: nat, n: nat): (c: nat)
    requires 0 < n <= 8
    ensures c < n
    ensures forall i: nat :: i < n ==> ClassDistance(w, c) <= ClassDistance(w, i)
    ensures forall i: nat :: i < c ==> ClassDistance(w, c) < ClassDistance(w, i)
  {
    if n == 1 then 0
    else
      var c := BestClass(w, n - 1);
      if ClassDistance(w, n - 1) < ClassDistance(w, c) then n - 1 else c
  }

  method CltiWeightToClass(weight: nat) returns (best: nat)
    requires weight < TWO32
    ensures best == BestClass(weight, 8)
  {
    if weight == 1024 {
      NiceZeroClass();
      return 4;
    }
    best := 0;
    var bestDiff := if weight > CLTI_WEIGHT_CLASS[0] then weight - CLTI_WEIGHT_CLASS[0]
                    else CLTI_WEIGHT_CLASS[0] - weight;
    var i := 1;
    while i < 8
      invariant 1 <= i <= 8
      invariant best == BestClass(weight, i) && bestDiff == ClassDistance(weight, best)
    {
      var diff := if weight > CLTI_WEIGHT_CLASS[i] then weight - CLTI_WEIGHT_CLASS[i]
                  else CLTI_WEIGHT_CLASS[i] - weight;
      if diff < bestDiff {
        bestDiff := diff;
        best := i;
      }
      i := i + 1;
    }
  }

  /** The shortcut for nice 0 returns what the search would have found. */
  lemma NiceZeroClass()
    ensures BestClass(1024, 8) == 4
  {
    assert ClassDistance(1024, 4) == 0;
    assert BestClass(1024, 8) >= 4 by {
      assert forall i: nat :: i < 4 ==> ClassDistance(1024, i) > 0;
    }
    assert BestClass(1024, 8) <= 4;
  }

  /** clti_vruntime_delta: one iteration on the class representative. */
  function CltiCharge(delta: nat, weight: nat): nat {
    ClassBelowTwo32(BestClass(weight, 8));
    ReciprocalCharge(delta, weight, CLTI_WEIGHT_CLASS[BestClass(weight, 8)], 1)
  }

  lemma ClassBelowTwo32(c: nat)
    requires c < 8
    ensures 16 <= CLTI_WEIGHT_CLASS[c] <= 65536
  {}

  method CltiVruntimeDelta(delta: nat, weight: nat) returns (d: nat)
    requires weight < TWO32
    ensures d == CltiCharge(delta, weight)
  {
    if weight == NICE_0_LOAD {
      return delta;
    }
    if weight == 0 {
      return 0;
    }
    var cls := CltiWeightToClass(weight);
    var rep := CLTI_WEIGHT_CLASS[cls];
    ClassBelowTwo32(cls);
    var inv := BsaNewtonReciprocal(rep, 1);
    return MulShr(delta, inv % TWO32, 22);
  }

  /** A larger factor gives a larger product, as long as nothing leaves 64 bits. */
  lemma MulShr22Mono(delta: nat, x: nat, y: nat)
    requires delta < TWO32 && x <= y < TWO32
    ensures MulShr(delta, x, 22) <= MulShr(delta, y, 22)
    ensures MulShr(delta, y, 22) == delta * y / 4194304
  {
    Pow2At32();
    MulMono(x, y, delta);
    MulMono(y, TWO32, delta);
    ShrMono(delta * x, delta * y, 22);
    DivMono(delta * y, TWO32 * TWO32, 4194304);
  }

  /** Every iterate from the first on is at most the exact inverse, and fits u32 for weights from 2. */
  lemma IterateBelowExact(w: nat, k: nat)
    requires 1 < w < TWO32 && k >= 1
    ensures Newton(w, k) <= TWO32 / w < TWO32
  {
    NewtonConverges(w, k);
    DivGe(TWO32, w, Newton(w, k));
    DivBounds(TWO32, w);
    MulMono(2, w, TWO32 / w);
  }

  /** A weight of one has an inverse of 2^32, which the cast to u32 turns into zero. */
  lemma UnitWeight(k: nat)
    ensures Newton(1, k) == TWO32
    ensures ExactCharge(TICK_NS, 1) == 0 && ReciprocalCharge(TICK_NS, 1, 1, k) == 0
  {
    hide Newton;
    PowerOfTwoReciprocal(0, k);
    Pow2At32();
    assert Pow2(0) == 1;
    ZeroProduct(TICK_NS);
    hide MulShr;
  }

  lemma ZeroProduct(delta: nat)
    ensures MulShr(delta, 0, 22) == 0
  {
    DivUnique(0, Pow2(22), 0);
  }

  /** The cast to u32 and the truncation to u64 lose nothing for weights from 2. */
  lemma BsaQuotient(delta: nat, weight: nat)
    requires delta < TWO32 && 1 < weight < TWO32 && weight != NICE_0_LOAD
    ensures BsaCharge(delta, weight) == delta * Newton(weight, 1) / 4194304
  {
    hide Newton;
    hide MulShr;
    IterateBelowExact(weight, 1);
    MulShr22Mono(delta, Newton(weight, 1), Newton(weight, 1));
  }

  lemma ExactQuotient(delta: nat, weight: nat)
    requires delta < TWO32 && 1 < weight < TWO32 && weight != NICE_0_LOAD
    ensures ExactCharge(delta, weight) == delta * (TWO32 / weight) / 4194304
  {
    hide MulShr;
    DivBounds(TWO32, weight);
    var inv := TWO32 / weight;
    MulMono(2, weight, inv);
    DivGe(TWO32, weight, 0);
    MulShr22Mono(delta, inv, inv);
  }

  /** apaf_vruntime_delta with two iterations. */
  lemma ApafQuotient(delta: nat, weight: nat)
    requires delta < TWO32 && 1 < weight < TWO32 && weight != NICE_0_LOAD
    ensures ReciprocalCharge(delta, weight, weight, 2) == delta * Newton(weight, 2) / 4194304
  {
    hide Newton;
    hide MulShr;
    IterateBelowExact(weight, 2);
    MulShr22Mono(delta, Newton(weight, 2), Newton(weight, 2));
  }

  lemma QuotientMono(delta: nat, x: nat, y: nat)
    requires x <= y
    ensures delta * x / 4194304 <= delta * y / 4194304
  {
    MulMono(x, y, delta);
    DivMono(delta * x, delta * y, 4194304);
  }

  /**
   * BSA never charges more than APAF in any state, and neither charges more than
   * exact CFS: approximate ticks can only favour the running task.
   */
  lemma ApproximationsNeverOvercharge(delta: nat, weight: nat, state: ApafState)
    requires delta < TWO32 && weight < TWO32
    ensures BsaCharge(delta, weight) <= ApafCharge(delta, weight, state) <= ExactCharge(delta, weight)
  {
    hide Newton;
    if weight == 1 {
      UnitWeight(1);
      UnitWeight(2);
    } else if weight > 1 && weight != NICE_0_LOAD {
      BsaQuotient(delta, weight);
      ApafQuotient(delta, weight);
      ExactQuotient(delta, weight);
      hide ExactCharge;
      hide ReciprocalCharge;
      IterateBelowExact(weight, 2);
      NewtonMonotone(weight, 1, 2);
      QuotientMono(delta, Newton(weight, 1), Newton(weight, 2));
      QuotientMono(delta, Newton(weight, 2), TWO32 / weight);
    }
  }

  /** For every nice-table weight one iteration keeps at least 97.55% of the exact inverse. */
  lemma OneIterationKeeps(w: nat)
    requires 1 < w <= 88761
    ensures 9755 * (TWO32 / w) <= 10000 * Newton(w, 1)
  {
    hide Newton;
    OneIterationDeficit(w);
    DivBounds(TWO32, w);
    Keeps(w, Newton(w, 1), TWO32 / w, 25 * 4194304 + 3 * 88761, 9755);
  }

  /** A deficit of e below 2^32 as a share of the exact inverse. */
  lemma Keeps(w: nat, x: nat, inv: nat, e: nat, share: nat)
    requires w > 0 && inv * w <= 4294967296 && 4294967296 - w * x <= e
    requires share * 4294967296 + 10000 * e <= 10000 * 4294967296
    ensures share * inv <= 10000 * x
  {
    MulMono(inv * w, 4294967296, share);
    assert (share * inv) * w == share * (inv * w);
    assert (10000 * x) * w == 10000 * (w * x);
    MulCancel(share * inv, 10000 * x, w);
  }

  /** The BSA charge is within 2.45% of the exact one, and one nanosecond of rounding. */
  lemma BsaChargeError(delta: nat, weight: nat)
    requires delta < TWO32 && 1 < weight <= 88761
    ensures 9755 * ExactCharge(delta, weight) <= 10000 * (BsaCharge(delta, weight) + 1)
  {
    hide Newton;
    if weight != NICE_0_LOAD {
      BsaQuotient(delta, weight);
      ExactQuotient(delta, weight);
      hide ExactCharge;
      hide BsaCharge;
      OneIterationKeeps(weight);
      ChargeShare(delta, Newton(weight, 1), TWO32 / weight, 9755, 10000);
    }
  }

  /** What a reciprocal x keeps of y it keeps of every charge, up to one nanosecond. */
  lemma ChargeShare(delta: nat, x: nat, y: nat, share: nat, whole: nat)
    requires share * y <= whole * x
    ensures share * (delta * y / 4194304) <= whole * (delta * x / 4194304 + 1)
  {
    var a, b := delta * x / 4194304, delta * y / 4194304;
    MulMono(share * y, whole * x, delta);
    assert delta * (share * y) == share * (delta * y) && delta * (whole * x) == whole * (delta * x);
    MulMono(b * 4194304, delta * y, share);
    MulMono(delta * x, (a + 1) * 4194304, whole);
    assert share * (b * 4194304) == (share * b) * 4194304;
    assert whole * ((a + 1) * 4194304) == (whole * (a + 1)) * 4194304;
  }
}
