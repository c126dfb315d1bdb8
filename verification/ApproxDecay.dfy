/**
 * The three approximations of the PELT decay: a shift per period (BSA), a coarse
 * table with linear interpolation (CLTI) and a polynomial per error budget (APAF).
 */
module ApproxDecay {
  import opened Constants
  import opened Decay
  import opened Charge

  /** n rounds of load - (load >> 5). */
  function BsaRounds(load: nat, n: nat): nat {
    if n == 0 then load
    else
      var before := BsaRounds(load, n - 1);
      before - before / 32
  }

  /** bsa_decay_load. */
  function BsaDecay(load: nat, periods: nat): nat {
    if periods == 0 then load
    else if periods >= PELT_MAX_PERIODS * LOAD_AVG_PERIOD then 0
    else BsaRounds(Shr(load, periods / LOAD_AVG_PERIOD), periods % LOAD_AVG_PERIOD)
  }

  method BsaDecayLoad(load0: nat, periods: nat) returns (load: nat)
    ensures load == BsaDecay(load0, periods)
  {
    if periods == 0 {
      return load0;
    }
    if periods >= PELT_MAX_PERIODS * LOAD_AVG_PERIOD {
      return 0;
    }
    var coarse := periods / LOAD_AVG_PERIOD;
    var localN := periods % LOAD_AVG_PERIOD;
    load := Shr(load0, coarse);
    for i := 0 to localN
      invariant load == BsaRounds(Shr(load0, coarse), i)
    {
      load := load - load / 32;
    }
  }

  /** clti_decay_interpolate. */
  function CltiInterpolate(load: nat, localN: nat): nat {
    var idx, rem := localN / 4, localN % 4;
    if localN == 0 then load
    else if idx >= 8 then 0
    else
      var base := MulShr(load, CLTI_DECAY_TABLE[idx], 15);
      if rem == 0 then base
      else if idx + 1 < 8 then
        var next := MulShr(load, CLTI_DECAY_TABLE[idx + 1], 15);
        var diff := if base >= next then base - next else 0;
        var correction := diff * rem / 4;
        if base >= correction then base - correction else 0
      else base / 2
  }

  /** clti_decay_load. */
  function CltiDecay(load: nat, periods: nat): nat {
    if periods == 0 then load
    else if periods >= PELT_MAX_PERIODS * LOAD_AVG_PERIOD then 0
    else CltiInterpolate(Shr(load, periods / LOAD_AVG_PERIOD), periods % LOAD_AVG_PERIOD)
  }

  /** The table entry as the fraction the double code divides out. */
  function TableFactor(n: nat): real
    requires n < 32
  {
    YN_INV[n] as real / 4294967295.0
  }

  /** a0 + n * (a1 + n * a2) with the coefficients of a state. */
  function Polynomial(n: nat, state: ApafState): real {
    var x := n as real;
    match state
    case Tight => 0.999755378067218 + x * (-0.021439723696865 + x * 0.000197742040395)
    case Medium => 0.998121961273224 + x * (-0.020869371290712 + x * 0.000167397421507)
    case Loose => 0.977779922300000 + x * -0.015578660700000
  }

  /** apaf_poly_eval, in real arithmetic. */
  function PolyEval(n: nat, state: ApafState): (r: real)
    ensures 0.0 <= r <= 1.0
  {
    if state == Tight && n > 16 then
      var idx := if n >= LOAD_AVG_PERIOD then LOAD_AVG_PERIOD - 1 else n;
      TableFactorInRange(idx);
      TableFactor(idx)
    else
      var p := Polynomial(n, state);
      if p > 1.0 then 1.0 else if p < 0.0 then 0.0 else p
  }

  lemma TableFactorInRange(n: nat)
    requires n < 32
    ensures 0.0 <= TableFactor(n) <= 1.0
  {
    TableEntry(n);
  }

  /** The factor apaf_decay_load multiplies by: LOOSE never goes below the exact table. */
  function ApafFactor(n: nat, state: ApafState): (r: real)
    requires n < 32
    ensures 0.0 <= r <= 1.0
  {
    TableFactorInRange(n);
    var factor := PolyEval(n, state);
    if state == Loose && factor < TableFactor(n) then TableFactor(n) else factor
  }

  /** A load times a factor in [0, 1], truncated as the cast back to u64 does. */
  function ScaledLoad(load: nat, factor: real): (r: nat)
    requires 0.0 <= factor <= 1.0
    ensures r <= load
    ensures r as real <= load as real * factor < r as real + 1.0
  {
    RealProduct(load as real, factor);
    (load as real * factor).Floor
  }

  lemma RealProduct(a: real, f: real)
    requires 0.0 <= a && 0.0 <= f <= 1.0
    ensures 0.0 <= a * f <= a
  {}

  /** apaf_decay_load. */
  function ApafDecay(load: nat, periods: nat, state: ApafState): nat {
    if periods == 0 then load
    else if periods >= PELT_MAX_PERIODS * LOAD_AVG_PERIOD then 0
    else
      var v := Shr(load, periods / LOAD_AVG_PERIOD);
      var n := periods % LOAD_AVG_PERIOD;
      if n > 0 then ScaledLoad(v, ApafFactor(n, state)) else v
  }
}
