/**
 * The PELT decay `load * y^n` as the kernel computes it (pelt.c) and as the
 * simulator's exact, BSA and CLTI ticks compute it.
 */
module Decay {
  import opened Arithmetic
  import opened Constants

  /** a >> k. */
  function Shr(a: nat, k: nat): (r: nat)
    ensures r <= a
  {
    DivGe(a, Pow2(k), 0);
    DivBounds(a, Pow2(k));
    MulMono(1, Pow2(k), a / Pow2(k));
    a / Pow2(k)
  }

  /** The low 64 bits of (a * b) >> shift, the product taken at full width. */
  function MulShr(a: nat, b: nat, shift: nat): nat {
    Shr(a * b, shift) % TWO64
  }

  /** decay_load of pelt.c. */
  function KernelDecay(val: nat, n: nat): nat {
    if n > LOAD_AVG_PERIOD * 63 then 0
    else
      var v := if n >= LOAD_AVG_PERIOD then Shr(val, n / LOAD_AVG_PERIOD) else val;
      MulShr(v, YN_INV[n % LOAD_AVG_PERIOD], 32)
  }

  /** exact_decay_load of cfs_exact.c. */
  function ExactDecay(load: nat, periods: nat): nat {
    if periods == 0 then load
    else if periods >= PELT_MAX_PERIODS * LOAD_AVG_PERIOD then 0
    else
      var v := Shr(load, periods / LOAD_AVG_PERIOD);
      var n := periods % LOAD_AVG_PERIOD;
      if n > 0 then MulShr(v, YN_INV[n], 32) else v
  }

  lemma Pow2At32()
    ensures Pow2(32) == TWO32 && Pow2(15) == 32768 && Pow2(22) == 4194304
  {
    assert Pow2(8) == 256;
    assert Pow2(15) == 32768;
    assert Pow2(22) == 4194304;
    assert Pow2(29) == 536870912;
  }

  /** A u64 multiplied by a factor below one in Q0.32 never leaves 64 bits. */
  lemma MulShr32(a: nat, b: nat)
    requires a < TWO64 && b < TWO32
    ensures MulShr(a, b, 32) == a * b / TWO32 <= a
  {
    Pow2At32();
    MulMono(b, TWO32, a);
    DivMono(a * b, a * TWO32, TWO32);
    DivUnique(a * TWO32, TWO32, a);
  }

  lemma TableEntry(n: nat)
    requires n < 32
    ensures 0x82cd8698 <= YN_INV[n] < TWO32
    ensures n > 0 ==> YN_INV[n] <= 0xfa83b2da
  {}

  /** The decay as one division: v = val >> (n/32), times the table entry, over 2^32. */
  lemma KernelDecayForm(val: nat, n: nat)
    requires val < TWO64 && n <= 2016
    ensures KernelDecay(val, n) == Shr(val, n / 32) * YN_INV[n % 32] / TWO32 <= val
  {
    TableEntry(n % 32);
    MulShr32(Shr(val, n / 32), YN_INV[n % 32]);
    if n < 32 {
      assert n / 32 == 0 && Pow2(0) == 1;
    }
  }

  /** 0xffffffff in Q0.32 is one unit in the last place short of one. */
  lemma TimesAlmostOne(v: nat)
    ensures v * 0xffffffff / TWO32 == v - (v + TWO32 - 1) / TWO32
  {
    var c := (v + TWO32 - 1) / TWO32;
    DivBounds(v + TWO32 - 1, TWO32);
    assert v * 0xffffffff == v * TWO32 - v;
    DivUnique(v * 0xffffffff, TWO32, v - c);
  }

  lemma Pow2Of63()
    ensures Pow2(63) == 0x8000_0000_0000_0000
  {
    Pow2At32();
    assert Pow2(39) == 128 * TWO32;
    assert Pow2(46) == 16384 * TWO32;
    assert Pow2(53) == 2097152 * TWO32;
    assert Pow2(60) == 268435456 * TWO32;
  }

  /**
   * The simulator's decay against the kernel's, for every u64 load and every
   * period count: equal off the half-life multiples and beyond the cutoff,
   * otherwise larger by the rounding loss of the kernel's 0xffffffff entry.
   */
  lemma ExactRefinesKernel(load: nat, n: nat)
    requires load < TWO64
    ensures n % 32 != 0 || n >= 2016 ==> ExactDecay(load, n) == KernelDecay(load, n)
    ensures n % 32 == 0 && n < 2016 ==>
              ExactDecay(load, n) == KernelDecay(load, n) + (Shr(load, n / 32) + TWO32 - 1) / TWO32
  {
    if n > 2016 {
    } else if n == 2016 {
      Pow2Of63();
      DivMono(load, TWO64 - 1, Pow2(63));
      KernelDecayForm(load, n);
      assert Shr(load, 63) <= 1;
    } else {
      KernelDecayForm(load, n);
      TableEntry(n % 32);
      if n % 32 == 0 {
        TimesAlmostOne(Shr(load, n / 32));
        assert n == 0 ==> Shr(load, 0) == load;
      } else {
        MulShr32(Shr(load, n / 32), YN_INV[n % 32]);
        if n < 32 {
          assert Shr(load, 0) == load;
        }
      }
    }
  }

  lemma ShrMono(a: nat, b: nat, k: nat)
    requires a <= b
    ensures Shr(a, k) <= Shr(b, k)
  {
    DivMono(a, b, Pow2(k));
  }

  lemma ShrSuperadditive(a: nat, b: nat, k: nat)
    ensures Shr(a, k) + Shr(b, k) <= Shr(a + b, k)
  {
    DivSuperadditive(a, b, Pow2(k));
  }

  /** Scaling by t / 2^32 and truncating is superadditive, hence monotone. */
  lemma ScaledSuperadditive(x: nat, y: nat, z: nat, t: nat)
    requires x + y <= z
    ensures x * t / TWO32 + y * t / TWO32 <= z * t / TWO32
  {
    DivSuperadditive(x * t, y * t, TWO32);
    assert x * t + y * t == (x + y) * t;
    MulMono(x + y, z, t);
    DivMono((x + y) * t, z * t, TWO32);
  }

  /** Decaying two sums apart never keeps more than decaying them together. */
  lemma KernelDecaySuperadditive(a: nat, b: nat, n: nat)
    requires a + b < TWO64
    ensures KernelDecay(a, n) + KernelDecay(b, n) <= KernelDecay(a + b, n)
  {
    if n <= 2016 {
      KernelDecayForm(a, n);
      KernelDecayForm(b, n);
      KernelDecayForm(a + b, n);
      ShrSuperadditive(a, b, n / 32);
      ScaledSuperadditive(Shr(a, n / 32), Shr(b, n / 32), Shr(a + b, n / 32), YN_INV[n % 32]);
    }
  }

  /** A larger sum decays to a larger sum. */
  lemma KernelDecayMonotone(a: nat, b: nat, n: nat)
    requires a <= b < TWO64
    ensures KernelDecay(a, n) <= KernelDecay(b, n)
  {
    KernelDecaySuperadditive(a, b - a, n);
  }

  /** The exact decay of one period. */
  lemma ExactOnePeriod(v: nat)
    requires v < TWO64
    ensures ExactDecay(v, 1) == v * 4202935002 / 4294967296
  {
    MulShr32(v, 0xfa83b2da);
    assert Shr(v, 0) == v;
  }

  /** A multiplication by a Q0.15 factor at most one. */
  lemma MulShr15(v: nat, a: nat)
    requires v < TWO64 && a <= 32768
    ensures MulShr(v, a, 15) == v * a / 32768 <= v
  {
    Pow2At32();
    MulMono(a, 32768, v);
    DivMono(v * a, v * 32768, 32768);
    DivUnique(v * 32768, 32768, v);
  }
}
