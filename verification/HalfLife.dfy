/**
 * The decay tables against what they stand for, y^n with y^32 = 1/2, without real numbers:
 * a root is compared by its power. From the tables, the kernel decay of every u64 sum over
 * every number of periods lies next to the sum times 2^(-n/32).
 */
module HalfLife {
  import opened Arithmetic
  import opened Constants
  import opened Decay
  import opened NewtonReciprocal

  function Square(x: nat): nat {
    x * x
  }

  /** x^32, so that Power32(x) * 2^n <= Power32(z) says x <= z * 2^(-n/32). */
  function Power32(x: nat): nat {
    Square(Square(Square(Square(Square(x)))))
  }

  /** e is the entry for a power y^n and root the one for y^2n, which past y^32 is half of y^(2n - 32). */
  predicate Doubles(e: nat, root: nat, half: bool) {
    var ee := if half then 2 * (e * e) else e * e;
    TWO32 * root < ee + 0x2_c000_0000 && ee <= TWO32 * root + 0x1000_0000
  }

  /** The square of every entry is the entry of twice the periods, a few units of the last place apart. */
  lemma TableDoubles(n: nat)
    requires 0 < n < 32
    ensures if n < 16 then Doubles(YN_INV[n], YN_INV[2 * n], false) else Doubles(YN_INV[n], YN_INV[2 * n - 32], true)
  {
    if n < 8 {
    } else if n < 16 {
    } else if n < 24 {
    } else {
    }
  }

  function Power16(x: nat): nat {
    Square(Square(Square(Square(x))))
  }

  lemma Power16Square(x: nat)
    ensures Square(Power16(x)) == Power32(x) == Power16(x * x)
  {}

  lemma Power16Mono(a: nat, b: nat)
    requires a <= b
    ensures Power16(a) <= Power16(b)
  {
    SquareMono(a, b);
    var a2, b2 := Square(a), Square(b);
    SquareMono(a2, b2);
    var a4, b4 := Square(a2), Square(b2);
    SquareMono(a4, b4);
    SquareMono(Square(a4), Square(b4));
  }

  lemma Power16Times(a: nat, b: nat)
    ensures Power16(a * b) == Power16(a) * Power16(b)
  {
    SquareTimes(a, b);
    var a2, b2 := Square(a), Square(b);
    SquareTimes(a2, b2);
    var a4, b4 := Square(a2), Square(b2);
    SquareTimes(a4, b4);
    SquareTimes(Square(a4), Square(b4));
  }

  lemma RootOfSquares(a: nat, b: nat)
    ensures Square(a) <= Square(b) ==> a <= b
  {
    if a > b {
      MulMono(b + 1, a, a);
      MulMono(b + 1, a, b + 1);
    }
  }

  /** From y above the root for 2j periods to x for the periods of which those are twice. */
  lemma RootStepUp(x: nat, y: nat, f: nat, j: nat, pn: nat)
    requires f * (x * x) <= TWO32 * y && Power16(f) * Pow2(j) == pn
    requires Power32(y) * Pow2(2 * j) <= Power32(TWO32)
    ensures Power32(x) * pn <= Power32(TWO32)
  {
    hide Pow2;
    hide Power16;
    hide Power32;
    Pow2Sum(j, j);
    var p := Pow2(j);
    Power16Square(x);
    Power16Square(y);
    Power16Square(TWO32);
    Power16Mono(f * (x * x), TWO32 * y);
    Power16Times(f, x * x);
    Power16Times(TWO32, y);
    SquareTimes(Power16(y), p);
    RootOfSquares(Power16(y) * p, Power16(TWO32));
    CombineUp(Power32(x), Power16(f), p, Power16(TWO32), Power16(y), pn, Power32(TWO32));
  }

  lemma CombineUp(x: nat, f: nat, p: nat, t: nat, y: nat, pn: nat, tt: nat)
    requires f * x <= t * y && f * p == pn && y * p <= t && tt == Square(t)
    ensures x * pn <= tt
  {
    MulMono(f * x, t * y, p);
    MulMono(y * p, t, t);
    assert (f * x) * p == x * (f * p) && (t * y) * p == t * (y * p);
  }

  lemma RootStepDown(x: nat, y: nat, f: nat, j: nat, pn: nat)
    requires TWO32 * y <= f * (x * x) && Power16(f) * Pow2(j) == pn
    requires Power32(TWO32) <= Power32(y) * Pow2(2 * j)
    ensures Power32(TWO32) <= Power32(x) * pn
  {
    hide Pow2;
    hide Power16;
    hide Power32;
    Pow2Sum(j, j);
    var p := Pow2(j);
    Power16Square(x);
    Power16Square(y);
    Power16Square(TWO32);
    Power16Mono(TWO32 * y, f * (x * x));
    Power16Times(f, x * x);
    Power16Times(TWO32, y);
    SquareTimes(Power16(y), p);
    RootOfSquares(Power16(TWO32), Power16(y) * p);
    CombineDown(Power32(x), Power16(f), p, Power16(TWO32), Power16(y), pn, Power32(TWO32));
  }

  lemma CombineDown(x: nat, f: nat, p: nat, t: nat, y: nat, pn: nat, tt: nat)
    requires t * y <= f * x && f * p == pn && t <= y * p && tt == Square(t)
    ensures tt <= x * pn
  {
    MulMono(t * y, f * x, p);
    MulMono(t, y * p, t);
    assert (f * x) * p == x * (f * p) && (t * y) * p == t * (y * p);
  }

  /** e lies at most one above and seven below 2^32 * 2^(-n/32). */
  ghost predicate NearRoot(e: nat, n: nat) {
    e > 0 && Power32(e - 1) * Pow2(n) <= Power32(TWO32) <= Power32(e + 7) * Pow2(n)
  }

  lemma FirstEntryNearRoot()
    ensures NearRoot(YN_INV[0], 0)
  {
    Power32Mono(0xffffffff - 1, TWO32);
    Power32Mono(TWO32, 0xffffffff + 7);
    assert Pow2(0) == 1;
    hide Power32;
  }

  /** k doublings of n periods, modulo a half-life, make none. */
  predicate DoublesToZero(n: nat, k: nat) {
    match k
    case 0 => n == 0
    case 1 => n % 16 == 0
    case 2 => n % 8 == 0
    case 3 => n % 4 == 0
    case 4 => n % 2 == 0
    case _ => k == 5
  }

  function Doubled(n: nat): (m: nat)
    requires n < 32
    ensures m < 32
  {
    if n < 16 then 2 * n else 2 * n - 32
  }

  lemma OneDoublingLess(n: nat, k: nat)
    requires 0 < n < 32 && DoublesToZero(n, k)
    ensures k > 0 && DoublesToZero(Doubled(n), k - 1)
  {}

  lemma {:induction false} TableNearRoot(n: nat, k: nat)
    requires n < 32 && DoublesToZero(n, k)
    ensures NearRoot(YN_INV[n], n)
    decreases k
  {
    hide *;
    if n == 0 {
      FirstEntryNearRoot();
    } else {
      OneDoublingLess(n, k);
      TableNearRoot(Doubled(n), k - 1);
      EntryNearRoot(n);
    }
  }

  lemma EntryNearRoot(n: nat)
    requires 0 < n < 32 && NearRoot(YN_INV[Doubled(n)], Doubled(n))
    ensures NearRoot(YN_INV[n], n)
  {
    hide NearRoot;
    hide Doubles;
    TableBounds(n);
    TableDoubles(n);
    EntryFromDouble(n, YN_INV[n], Doubled(n), YN_INV[Doubled(n)]);
  }

  lemma TableBounds(n: nat)
    requires n < 32
    ensures 0x82cd8698 <= YN_INV[n] < TWO32 && (n < 16 ==> YN_INV[n] >= 0xb8fbaf46)
  {}

  lemma EntryFromDouble(n: nat, e: nat, m: nat, em: nat)
    requires 0 < n < 32 && m == (if n < 16 then 2 * n else 2 * n - 32) && NearRoot(em, m)
    requires Doubles(e, em, n >= 16) && 0x82cd8698 <= e < TWO32 && (n < 16 ==> e >= 0xb8fbaf46)
    ensures NearRoot(e, n)
  {
    hide Pow2;
    hide Power16;
    hide Power32;
    hide Doubles;
    var j, f := if n < 16 then n else n - 16, if n < 16 then 1 else 2;
    assert m == 2 * j;
    Power16OfFactor(n, j, f);
    SquareNear(e, em, f);
    RootStepUp(e - 1, em - 1, f, j, Pow2(n));
    RootStepDown(e + 7, em + 7, f, j, Pow2(n));
  }

  lemma Power16OfFactor(n: nat, j: nat, f: nat)
    requires (n == j && f == 1) || (n == j + 16 && f == 2)
    ensures Power16(f) * Pow2(j) == Pow2(n)
  {
    assert Power16(1) == 1 && Power16(2) == 65536;
    Pow2At32();
    assert Pow2(16) == 2 * Pow2(15);
    hide Power16;
    Pow2Sum(16, j);
  }

  lemma SquareNear(e: nat, em: nat, f: nat)
    requires Doubles(e, em, f == 2) && (f == 1 || f == 2) && 0x82cd8698 <= e < TWO32 && (f == 1 ==> e >= 0xb8fbaf46)
    requires em > 0
    ensures f * ((e - 1) * (e - 1)) <= TWO32 * (em - 1) && TWO32 * (em + 7) <= f * ((e + 7) * (e + 7))
  {
    assert (e - 1) * (e - 1) == e * e - 2 * e + 1 && (e + 7) * (e + 7) == e * e + 14 * e + 49;
  }

  /** One squaring with a rounded intermediate: y is at most c * m, and TWO64 * m is w. */
  lemma SquareRounded(y: nat, c: nat, d: nat, m: nat, w: nat)
    requires y <= c * m && c * c <= d * TWO64 && TWO64 * m == w
    ensures Square(y) <= d * (w * m) && TWO64 * (w * m) == Square(w)
  {
    SquareMono(y, c * m);
    SquareTimes(c, m);
    MulMono(c * c, d * TWO64, m * m);
    assert (d * TWO64) * (m * m) == d * ((TWO64 * m) * m);
    assert TWO64 * (w * m) == w * (TWO64 * m);
  }

  /** The table is not simply rounded down: the entry of one period could be one more. */
  lemma FirstEntryCouldBeMore()
    ensures Power32(YN_INV[1] + 1) * 2 < Power32(TWO32)
  {
    var y := YN_INV[1] + 1;
    assert y * y == 17664662639442610009;
    var y2, m1 := y * y, 1;
    var w1 := TWO64;
    SquareRounded(y2, 17664662639442610009, 16915738892374070367, m1, w1);
    var y4, m2, w2 := Square(y2), w1 * m1, Square(w1);
    SquareRounded(y4, 16915738892374070367, 15511800951517994075, m2, w2);
    var y8, m3, w3 := Square(y4), w2 * m2, Square(w2);
    SquareRounded(y8, 15511800951517994075, 13043817803188496829, m3, w3);
    var y16, m4, w4 := Square(y8), w3 * m3, Square(w3);
    SquareRounded(y16, 13043817803188496829, 9223372005538027117, m4, w4);
    var m5 := w4 * m4;
    assert Power32(y) == Square(y16) && Power32(TWO32) == Square(w4) by {
      assert TWO32 * TWO32 == TWO64;
    }
    hide *;
    BelowHalfOf(Square(y16), 9223372005538027117, m5, Square(w4));
  }

  lemma BelowHalfOf(x: nat, c: nat, m: nat, w: nat)
    requires x <= c * m && 2 * c < TWO64 && TWO64 * m == w && m > 0
    ensures x * 2 < w
  {
    MulMono(2 * c + 1, TWO64, m);
  }

  /** Every entry of the CLTI table is the kernel entry of four times as many periods, rounded to Q0.15. */
  lemma CltiTableRoundsKernel(i: nat)
    requires i < 8
    ensures YN_INV[4 * i] <= CLTI_DECAY_TABLE[i] * 131072 + 65536
    ensures CLTI_DECAY_TABLE[i] * 131072 <= YN_INV[4 * i] + 65536
  {}

  lemma SquareMono(a: nat, b: nat)
    requires a <= b
    ensures Square(a) <= Square(b)
  {
    MulMono(a, b, a);
    MulMono(a, b, b);
  }

  lemma SquareTimes(a: nat, b: nat)
    ensures Square(a * b) == Square(a) * Square(b)
  {
    assert (a * b) * (a * b) == (a * a) * (b * b);
  }

  lemma Power32Mono(a: nat, b: nat)
    requires a <= b
    ensures Power32(a) <= Power32(b)
  {
    SquareMono(a, b);
    var a2, b2 := Square(a), Square(b);
    SquareMono(a2, b2);
    var a4, b4 := Square(a2), Square(b2);
    SquareMono(a4, b4);
    var a8, b8 := Square(a4), Square(b4);
    SquareMono(a8, b8);
    SquareMono(Square(a8), Square(b8));
  }

  lemma Power32Times(a: nat, b: nat)
    ensures Power32(a * b) == Power32(a) * Power32(b)
  {
    SquareTimes(a, b);
    var a2, b2 := Square(a), Square(b);
    SquareTimes(a2, b2);
    var a4, b4 := Square(a2), Square(b2);
    SquareTimes(a4, b4);
    var a8, b8 := Square(a4), Square(b4);
    SquareTimes(a8, b8);
    SquareTimes(Square(a8), Square(b8));
  }

  lemma Power32OfPow2(k: nat)
    ensures Power32(Pow2(k)) == Pow2(32 * k)
  {
    hide Pow2;
    Pow2Sum(k, k);
    Pow2Sum(2 * k, 2 * k);
    Pow2Sum(4 * k, 4 * k);
    Pow2Sum(8 * k, 8 * k);
    Pow2Sum(16 * k, 16 * k);
  }

  lemma Power32Positive(a: nat)
    requires a > 0
    ensures Power32(a) > 0
  {
    Power32Mono(1, a);
    assert Power32(1) == 1;
  }

  /** The decay exceeds val * 2^(-n/32) by at most one unit, and one for every 2^32 of the sum. */
  lemma DecayBelowRoot(val: nat, n: nat, low: nat)
    requires val < TWO64 && low + 1 + val / TWO32 <= KernelDecay(val, n)
    ensures Power32(low) * Pow2(n) <= Power32(val)
  {
    hide Power32;
    hide KernelDecay;
    hide Pow2;
    var k, r := n / 32, n % 32;
    var s, e := Shr(val, k), YN_INV[r];
    BelowCutoff(val, n);
    KernelDecayForm(val, n);
    DivBounds(s * e, TWO32);
    DivBounds(val, Pow2(k));
    hide Shr;
    DivBounds(val, TWO32);
    TableNearRoot(r, 5);
    Pow2Sum(32 * k, r);
    Power32OfPow2(k);
    UpperProduct(val, s, e, KernelDecay(val, n), low, Pow2(k));
    hide *;
    UpperRoot(val, e - 1, low, Pow2(k), Pow2(r), Pow2(n));
  }

  lemma BelowCutoff(val: nat, n: nat)
    requires KernelDecay(val, n) > 0
    ensures n <= 2016
  {}

  lemma UpperProduct(val: nat, s: nat, e: nat, d: nat, low: nat, p: nat)
    requires e > 0 && d * TWO32 <= s * e && s * p <= val && s <= val && low + 1 + val / TWO32 <= d
    requires val < (val / TWO32) * TWO32 + TWO32
    ensures (low * TWO32) * p <= val * (e - 1)
  {
    assert s * (e - 1) == s * e - s;
    assert low * TWO32 <= s * (e - 1);
    MulMono(low * TWO32, s * (e - 1), p);
    MulMono(s * p, val, e - 1);
    assert (s * (e - 1)) * p == (s * p) * (e - 1);
  }

  lemma UpperRoot(val: nat, e: nat, d: nat, p: nat, q: nat, pn: nat)
    requires (d * TWO32) * p <= val * e && Power32(p) * q == pn && Power32(e) * q <= Power32(TWO32)
    ensures Power32(d) * pn <= Power32(val)
  {
    Power32Mono((d * TWO32) * p, val * e);
    Power32Times(d * TWO32, p);
    Power32Times(d, TWO32);
    Power32Times(val, e);
    Power32Positive(TWO32);
    hide Power32;
    UpperCancel(Power32(d), Power32(TWO32), Power32(p), q, Power32(val), Power32(e));
  }

  lemma UpperCancel(d: nat, t: nat, p: nat, q: nat, v: nat, e: nat)
    requires (d * t) * p <= v * e && e * q <= t && t > 0
    ensures d * (p * q) <= v
  {
    MulMono((d * t) * p, v * e, q);
    MulMono(e * q, t, v);
    assert (v * e) * q == v * (e * q);
    assert ((d * t) * p) * q == (d * (p * q)) * t;
    MulCancel(d * (p * q), v, t);
  }

  /** And it falls at most three units, and one for every 2^29 of the sum, below. */
  lemma DecayAboveRoot(val: nat, n: nat)
    requires val < TWO64 && n < 2016
    ensures Power32(val) <= Power32(KernelDecay(val, n) + 3 + val / 0x2000_0000) * Pow2(n)
  {
    hide Power32;
    hide KernelDecay;
    hide Pow2;
    var k, r := n / 32, n % 32;
    var s, e, d := Shr(val, k), YN_INV[r], KernelDecay(val, n);
    KernelDecayForm(val, n);
    DivBounds(s * e, TWO32);
    DivBounds(val, Pow2(k));
    hide Shr;
    DivBounds(val, 0x2000_0000);
    TableEntry(r);
    TableNearRoot(r, 5);
    Pow2Sum(32 * k, r);
    Power32OfPow2(k);
    LowerProduct(val, s, e, d, d + 3 + val / 0x2000_0000, Pow2(k));
    hide *;
    LowerRoot(val, e, d + 3 + val / 0x2000_0000, Pow2(k), Pow2(r), Pow2(n));
  }

  lemma LowerProduct(val: nat, s: nat, e: nat, d: nat, l: nat, p: nat)
    requires p > 0 && s * e < d * TWO32 + TWO32 && val < s * p + p && s <= val && e < TWO32
    requires l >= d + 3 && val < (l - d - 3) * 0x2000_0000 + 0x2000_0000
    ensures val * (e + 7) <= (l * TWO32) * p
  {
    assert (s + 1) * (e + 7) == s * e + e + 7 * s + 7;
    assert (s + 1) * (e + 7) <= l * TWO32;
    MulMono(val, (s + 1) * p, e + 7);
    assert (s + 1) * p == s * p + p;
    assert ((s + 1) * p) * (e + 7) == ((s + 1) * (e + 7)) * p;
    MulMono((s + 1) * (e + 7), l * TWO32, p);
  }

  lemma LowerRoot(val: nat, e: nat, l: nat, p: nat, q: nat, pn: nat)
    requires val * (e + 7) <= (l * TWO32) * p && Power32(p) * q == pn && Power32(TWO32) <= Power32(e + 7) * q
    ensures Power32(val) <= Power32(l) * pn
  {
    Power32Mono(val * (e + 7), (l * TWO32) * p);
    Power32Times(l * TWO32, p);
    Power32Times(l, TWO32);
    Power32Times(val, e + 7);
    Power32Positive(TWO32);
    hide Power32;
    LowerCancel(Power32(val), Power32(e + 7), Power32(l), Power32(TWO32), Power32(p), q);
  }

  lemma LowerCancel(v: nat, e: nat, l: nat, t: nat, p: nat, q: nat)
    requires v * e <= (l * t) * p && t <= e * q && t > 0
    ensures v <= l * (p * q)
  {
    MulMono(v * e, (l * t) * p, q);
    MulMono(t, e * q, v);
    assert (v * e) * q == v * (e * q);
    assert ((l * t) * p) * q == (l * (p * q)) * t;
    MulCancel(v, l * (p * q), t);
  }

  /** What is left of the largest u64 after 62 half-lives: 3, and then less. */
  lemma LastShift(n: nat)
    requires n < 2016
    ensures Shr(TWO64 - 1, n / 32) >= 3
  {
    Pow2Mono(n / 32, 62);
    Pow2Of63();
    assert Pow2(63) == 2 * Pow2(62);
    hide Pow2;
    MulMono(Pow2(n / 32), Pow2(62), 3);
    DivGe(TWO64 - 1, Pow2(n / 32), 3);
  }

  /** The largest u64 decays to something up to period 2015, and to nothing from 2016 on. */
  lemma LastPeriod(n: nat)
    ensures KernelDecay(TWO64 - 1, n) > 0 <==> n < 2016
    ensures ExactDecay(TWO64 - 1, n) > 0 <==> n < 2016
  {
    if n < 2016 {
      var v := Shr(TWO64 - 1, n / 32);
      LastShift(n);
      KernelDecayForm(TWO64 - 1, n);
      TableEntry(n % 32);
      hide Shr;
      MulMono(3, v, YN_INV[n % 32]);
      DivGe(v * YN_INV[n % 32], TWO32, 1);
      ExactRefinesKernel(TWO64 - 1, n);
      hide KernelDecay;
      hide ExactDecay;
      DivGe(v + TWO32 - 1, TWO32, 0);
    } else {
      ExactRefinesKernel(TWO64 - 1, n);
      if n == 2016 {
        KernelDecayForm(TWO64 - 1, n);
        Pow2Of63();
        assert Shr(TWO64 - 1, 63) == 1;
      }
    }
  }
}
