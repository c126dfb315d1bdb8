/**
 * Facts about truncating division and products of natural numbers that the
 * fixed-point modules share.
 */
module Arithmetic {

  /** 2^n: the model of a shift by n is a product with, or a division by, Pow2(n). */
  function Pow2(n: nat): (p: nat)
    ensures p >= 1
    decreases n
  {
    if n == 0 then 1 else 2 * Pow2(n - 1)
  }

  function Min(a: nat, b: nat): nat { if a <= b then a else b }

  function Max(a: nat, b: nat): nat { if a <= b then b else a }

  function Abs(a: int): nat { if a < 0 then -a else a }

  function AbsReal(a: real): real { if a < 0.0 then -a else a }

  lemma MulMono(a: int, b: int, c: nat)
    ensures a <= b ==> a * c <= b * c && c * a <= c * b
  {}

  lemma MulCancel(a: int, b: int, k: nat)
    requires k > 0 && a * k <= b * k
    ensures a <= b
  {
    MulMono(b + 1, a, k);
  }

  lemma DivBounds(a: int, k: int)
    requires k > 0
    ensures (a / k) * k <= a < (a / k) * k + k
  {
    assert a == k * (a / k) + a % k;
  }

  /** The quotient is the only q with q*k <= a < (q+1)*k. */
  lemma DivUnique(a: int, k: int, q: int)
    requires k > 0 && q * k <= a < q * k + k
    ensures a / k == q
  {
    DivBounds(a, k);
    MulMono(q + 1, a / k, k);
    MulMono(a / k + 1, q, k);
  }

  lemma DivMono(a: int, b: int, k: int)
    requires a <= b && k > 0
    ensures a / k <= b / k
  {
    DivBounds(a, k);
    DivBounds(b, k);
    MulMono(b / k + 1, a / k, k);
  }

  /** q*k <= a exactly when q is at most the quotient. */
  lemma DivGe(a: int, k: int, q: int)
    requires k > 0
    ensures q <= a / k <==> q * k <= a
  {
    DivBounds(a, k);
    MulMono(q, a / k, k);
    MulMono(a / k + 1, q, k);
  }

  lemma DivSuperadditive(a: nat, b: nat, k: nat)
    requires k > 0
    ensures a / k + b / k <= (a + b) / k
  {
    DivBounds(a, k);
    DivBounds(b, k);
    DivGe(a + b, k, a / k + b / k);
    assert (a / k + b / k) * k == (a / k) * k + (b / k) * k;
  }

  /** Reducing a summand first does not change a sum modulo m. */
  lemma ModAdd(a: int, b: int, m: int)
    requires m > 0
    ensures (a % m + b) % m == (a + b) % m
    ensures (a + b % m) % m == (a + b) % m
  {
    ModShift(a % m + b, a / m, m);
    assert a % m + b + (a / m) * m == a + b;
    ModShift(a + b % m, b / m, m);
    assert a + b % m + (b / m) * m == a + b;
  }

  lemma ModShift(a: int, k: int, m: int)
    requires m > 0
    ensures (a + k * m) % m == a % m
  {
    assert a == m * (a / m) + a % m;
    assert a + k * m == (a / m + k) * m + a % m;
    DivUnique(a + k * m, m, a / m + k);
  }

  lemma ModSmall(a: nat, m: nat)
    requires a < m
    ensures a % m == a
  {}

  /** Reducing a factor first does not change a product modulo m. */
  lemma ModMul(a: int, b: int, m: int)
    requires m > 0
    ensures (a * (b % m)) % m == (a * b) % m
  {
    ModShift(a * (b % m), a * (b / m), m);
    assert b == m * (b / m) + b % m;
    assert a * b == a * (m * (b / m) + b % m) == a * (b % m) + (a * (b / m)) * m;
  }
}
