/**
  Bitwise operations on unsigned words, defined bit by bit on natural numbers, and the
  arithmetic forms of the masks and shifts the kernel uses.
 */
module Bits {

  function Pow2(n: nat): (r: nat)
    ensures r >= 1
  {
    if n == 0 then 1 else 2 * Pow2(n - 1)
  }

  function And(a: nat, b: nat): nat {
    if a == 0 || b == 0 then 0
    else (if a % 2 == 1 && b % 2 == 1 then 1 else 0) + 2 * And(a / 2, b / 2)
  }

  function Or(a: nat, b: nat): nat
    decreases a + b
  {
    if a == 0 && b == 0 then 0
    else (if a % 2 == 1 || b % 2 == 1 then 1 else 0) + 2 * Or(a / 2, b / 2)
  }

  function Xor(a: nat, b: nat): nat
    decreases a + b
  {
    if a == 0 && b == 0 then 0
    else (if a % 2 != b % 2 then 1 else 0) + 2 * Xor(a / 2, b / 2)
  }

  /** Division and remainder by `2 * m`, one bit at a time. */
  lemma HalfStep(x: nat, m: nat)
    requires m > 0
    ensures x / (2 * m) == x / 2 / m
    ensures x % (2 * m) == x % 2 + 2 * (x / 2 % m)
  {
    var q, r := x / 2 / m, x / 2 % m;
    assert x / 2 == q * m + r;
    assert x == q * (2 * m) + (x % 2 + 2 * r);
    DivModUnique(x, 2 * m, q, x % 2 + 2 * r);
  }

  lemma DivModUnique(x: int, d: nat, q: int, r: nat)
    requires d > 0 && r < d && x == q * d + r
    ensures x / d == q && x % d == r
  {
    var q', r' := x / d, x % d;
    assert x == q' * d + r' && 0 <= r' < d;
    var k := q - q';
    assert k * d == r' - r by { assert k * d == q * d - q' * d; }
    if k >= 1 {
      assert k * d >= d by { MulAtLeast(k, d); }
    } else if k <= -1 {
      assert (-k) * d >= d by { MulAtLeast(-k, d); }
    }
  }

  lemma MulAtLeast(k: int, d: nat)
    requires k >= 1
    ensures k * d >= d
  {
    assert k * d == d + (k - 1) * d;
  }

  /** Masking with `n` ones at bit 0 is the remainder. */
  lemma {:induction false} AndLow(x: nat, n: nat)
    ensures And(x, Pow2(n) - 1) == x % Pow2(n)
  {
    if n == 0 {
    } else {
      AndLow(x / 2, n - 1);
      HalfStep(x, Pow2(n - 1));
      assert (Pow2(n) - 1) / 2 == Pow2(n - 1) - 1;
      if x != 0 {
        assert (Pow2(n) - 1) % 2 == 1;
      }
    }
  }

  lemma Double(a: int, m: int)
    ensures a * (2 * m) == 2 * (a * m)
  {
  }

  /** One even-mask step of `And`. */
  lemma AndEven(x: nat, m: nat)
    ensures And(x, 2 * m) == 2 * And(x / 2, m)
  {
  }

  /** Masking with `n` ones starting at bit `k` keeps bits `k .. k + n`. */
  lemma {:induction false} AndField(x: nat, n: nat, k: nat)
    ensures And(x, (Pow2(n) - 1) * Pow2(k)) == x / Pow2(k) % Pow2(n) * Pow2(k)
  {
    var ones := Pow2(n) - 1;
    if k == 0 {
      AndLow(x, n);
    } else {
      var m := Pow2(k - 1);
      HalfStep(x, m);
      var f := x / Pow2(k) % Pow2(n);
      calc {
        And(x, ones * Pow2(k));
        { Double(ones, m); }
        And(x, 2 * (ones * m));
        { AndEven(x, ones * m); }
        2 * And(x / 2, ones * m);
        { AndField(x / 2, n, k - 1); }
        2 * (f * m);
        { Double(f, m); }
        f * Pow2(k);
      }
    }
  }

  /** An address with `k` low zero bits, or-ed with a value below `2^k`, is their sum. */
  lemma {:induction false} OrDisjoint(a: nat, k: nat, b: nat)
    requires b < Pow2(k)
    ensures Or(a * Pow2(k), b) == a * Pow2(k) + b
  {
    if k == 0 {
      OrZero(a);
      assert a * Pow2(0) == a;
    } else {
      var m := Pow2(k - 1);
      Double(a, m);
      OrDisjoint(a, k - 1, b / 2);
    }
  }

  lemma {:induction false} OrZero(a: nat)
    ensures Or(a, 0) == a
  {
    if a > 0 {
      OrZero(a / 2);
    }
  }

  lemma {:induction false} XorZero(a: nat)
    ensures Xor(a, 0) == a
  {
    if a > 0 {
      XorZero(a / 2);
    }
  }

  /** One step of `Xor` with an even number. */
  lemma XorEven(x: nat, m: nat)
    ensures Xor(x, 2 * m) == x % 2 + 2 * Xor(x / 2, m)
  {
  }

  /** Flipping the bit worth `m == 2^k` adds `m` when the bit is clear and subtracts it when it is set. */
  lemma {:induction false} XorBit(x: nat, k: nat, m: nat, q: nat)
    requires m == Pow2(k) && q == x / m
    ensures Xor(x, m) == if q % 2 == 0 then x + m else x - m
  {
    if k == 0 {
      XorZero(x / 2);
    } else {
      var h := Pow2(k - 1);
      HalfDiv(x, h);
      XorBit(x / 2, k - 1, h, x / 2 / h);
      XorBitStep(x, h, q);
    }
  }

  lemma HalfDiv(x: nat, m: nat)
    requires m > 0
    ensures x / (2 * m) == x / 2 / m
  {
    HalfStep(x, m);
  }

  lemma XorBitStep(x: nat, m: nat, q: nat)
    requires Xor(x / 2, m) == if q % 2 == 0 then x / 2 + m else x / 2 - m
    ensures Xor(x, 2 * m) == if q % 2 == 0 then x + 2 * m else x - 2 * m
  {
    XorEven(x, m);
  }

  lemma {:induction false} Pow2Add(a: nat, b: nat)
    ensures Pow2(a + b) == Pow2(a) * Pow2(b)
  {
    if a > 0 {
      Pow2Add(a - 1, b);
    }
  }

  /** Or-ing a value below `2^k` into a word leaves the bits from `k` upwards alone. */
  lemma OrLow(a: nat, k: nat, b: nat, c: nat)
    requires b < Pow2(k) && c < Pow2(k)
    ensures Or(a * Pow2(k) + b, c) == a * Pow2(k) + Or(b, c)
    ensures Or(b, c) < Pow2(k)
  {
    OrLowAt(a, k, Pow2(k), a * Pow2(k), b, c);
  }

  lemma {:induction false} OrLowAt(a: nat, k: nat, m: nat, high: nat, b: nat, c: nat)
    requires m == Pow2(k) && high == a * m && b < m && c < m
    ensures Or(high + b, c) == high + Or(b, c)
    ensures Or(b, c) < m
  {
    if k == 0 {
      OrZero(high);
    } else {
      var h := Pow2(k - 1);
      Double(a, h);
      OrLowAt(a, k - 1, h, a * h, b / 2, c / 2);
      OrLowStep(a * h, b, c);
    }
  }

  lemma OrLowStep(high: nat, b: nat, c: nat)
    requires Or(high + b / 2, c / 2) == high + Or(b / 2, c / 2)
    ensures Or(2 * high + b, c) == 2 * high + Or(b, c)
    ensures Or(b, c) <= 2 * Or(b / 2, c / 2) + 1
  {
    OrStep(2 * high + b, c);
    OrStep(b, c);
    assert (2 * high + b) / 2 == high + b / 2;
  }

  lemma OrStep(x: nat, y: nat)
    ensures Or(x, y) == (if x % 2 == 1 || y % 2 == 1 then 1 else 0) + 2 * Or(x / 2, y / 2)
  {
  }

  function Min(a: nat, b: nat): nat { if a < b then a else b }
}
