/** Single-precision numbers as their 32-bit patterns: the sign in bit 31, the
    biased exponent in bits 23 to 30, the fraction below. */
module Floats {
  import opened Common

  type F32 = u32

  const ZERO: F32 := 0
  const SIGN: nat := 0x8000_0000
  const FRACTION: nat := 0x80_0000
  /** Counting up by 1.0 stops here: 2^24 + 1.0 rounds back to 2^24. */
  const COUNT_CEILING: nat := 0x100_0000

  function Exponent(b: F32): nat { b / FRACTION % 256 }

  predicate Finite(b: F32) { Exponent(b) != 255 }

  /** `b < 0.0`; the pattern of -0.0 is not below zero. */
  predicate Negative(b: F32) { b > SIGN }

  /** A finite number above zero. */
  predicate Positive(b: F32) { 0 < b < SIGN && Finite(b) }

  function Pow2(n: nat): (r: nat)
    ensures r > 0
  {
    if n == 0 then 1 else 2 * Pow2(n - 1)
  }

  /** The number a finite, non-negative pattern stands for. */
  function Value(b: F32): real {
    var e := Exponent(b);
    var m := b % FRACTION;
    if e == 0 then m as real / Pow2(149) as real
    else if e < 150 then (FRACTION + m) as real / Pow2(150 - e) as real
    else ((FRACTION + m) * Pow2(e - 150)) as real
  }

  function Log2(n: nat): (k: nat)
    requires n > 0
    ensures Pow2(k) <= n < Pow2(k + 1)
  {
    if n == 1 then 0
    else
      assert n / 2 > 0;
      Log2(n / 2) + 1
  }

  lemma TwiceProduct(x: nat, y: nat)
    ensures 2 * (x * y) == (2 * x) * y
  {
  }

  lemma {:induction false} PowSum(a: nat, b: nat)
    ensures Pow2(a + b) == Pow2(a) * Pow2(b)
  {
    if a > 0 {
      PowSum(a - 1, b);
      assert Pow2(a + b) == 2 * Pow2(a - 1 + b);
      TwiceProduct(Pow2(a - 1), Pow2(b));
    }
  }

  lemma {:induction false} PowMonotone(a: nat, b: nat)
    requires a <= b
    ensures Pow2(a) <= Pow2(b)
  {
    if a < b { PowMonotone(a, b - 1); }
  }

  lemma Pow24()
    ensures Pow2(23) == FRACTION && Pow2(24) == COUNT_CEILING
  {
    assert Pow2(12) == 4096;
    PowSum(12, 12);
    assert Pow2(24) == 2 * Pow2(23);
  }

  lemma Scale(a: nat, b: nat, d: nat)
    requires d > 0
    ensures a <= b ==> a * d <= b * d
    ensures a < b ==> a * d < b * d
  {
  }

  lemma Normalized(n: nat, k: nat)
    requires Pow2(k) <= n < Pow2(k + 1) && k <= 23
    ensures FRACTION <= n * Pow2(23 - k) < 2 * FRACTION
  {
    Pow24();
    PowSum(k, 23 - k);
    PowSum(k + 1, 23 - k);
    Scale(Pow2(k), n, Pow2(23 - k));
    Scale(n, Pow2(k + 1), Pow2(23 - k));
  }

  /** The fraction field of the count `n`, whose leading bit is bit `k`. */
  function Fraction(n: nat, k: nat): (m: nat)
    requires Pow2(k) <= n < Pow2(k + 1) && k <= 23
    ensures m < FRACTION
  {
    Normalized(n, k);
    n * Pow2(23 - k) - FRACTION
  }

  lemma LogBound(n: nat)
    requires 0 < n < COUNT_CEILING
    ensures Log2(n) <= 23
  {
    Pow24();
    if Log2(n) >= 24 { PowMonotone(24, Log2(n)); }
  }

  /** What adding 1.0 to 0.0 `n` times leaves. */
  function FromCount(n: nat): (b: F32)
    ensures n > 0 ==> Positive(b)
    ensures n == 0 ==> b == ZERO
    ensures Finite(b) && !Negative(b)
  {
    if n == 0 then ZERO
    else if n >= COUNT_CEILING then 151 * FRACTION
    else
      LogBound(n);
      var k := Log2(n);
      (127 + k) * FRACTION + Fraction(n, k)
  }

  lemma {:induction false} FromCountIsExact(n: nat)
    ensures Value(FromCount(n)) == Min(n, COUNT_CEILING) as real
  {
    hide Log2, Pow2;
    if n == 0 {
      ZeroIsExact();
    } else if n >= COUNT_CEILING {
      CeilingIsExact();
    } else {
      LogBound(n);
      SmallCountIsExact(n, Log2(n), Fraction(n, Log2(n)));
    }
  }

  lemma {:induction false} ZeroIsExact()
    ensures Value(ZERO) == 0.0
  {
    hide Pow2;
  }

  lemma CeilingIsExact()
    ensures Value(151 * FRACTION) == COUNT_CEILING as real
  {
    assert Pow2(1) == 2;
  }

  lemma SmallCountIsExact(n: nat, k: nat, m: nat)
    requires n > 0 && k <= 23 && m < FRACTION && FRACTION + m == n * Pow2(23 - k)
    ensures Value((127 + k) * FRACTION + m) == n as real
  {
    var b := (127 + k) * FRACTION + m;
    assert b / FRACTION == 127 + k && b % FRACTION == m;
    Cancel(n, Pow2(23 - k));
  }

  lemma Cancel(n: nat, d: nat)
    requires d > 0
    ensures (n * d) as real / d as real == n as real
  {
    assert (n * d) as real == n as real * d as real;
  }

  // ------------------------------------------------------------------ the three fields

  /** A pattern by its sign, its exponent and its fraction: finite short of the last
      exponent, below zero with the sign and anything else, above zero without it. */
  lemma {:induction false} FieldsDecide(sign: nat, e: nat, f: nat)
    requires sign < 2 && e < 256 && f < FRACTION
    ensures var b := SIGN * sign + FRACTION * e + f;
      && b < U32_LIMIT && Exponent(b) == e && b % FRACTION == f
      && (Finite(b) <==> e < 255)
      && (Negative(b) <==> sign == 1 && (e > 0 || f > 0))
      && (Positive(b) <==> sign == 0 && e < 255 && (e > 0 || f > 0))
  {
  }

  /** Finite patterns without the sign stand for zero exactly when both fields are. */
  lemma {:induction false} PositiveValue(b: F32)
    requires Finite(b) && b < SIGN
    ensures Value(b) >= 0.0 && (Value(b) > 0.0 <==> Positive(b))
  {
    var e, m := Exponent(b), b % FRACTION;
    assert b == FRACTION * e + m;
    if e == 0 {
      RatioSign(m, Pow2(149));
    } else if e < 150 {
      RatioSign(FRACTION + m, Pow2(150 - e));
    } else {
      ProductSign(FRACTION + m, Pow2(e - 150));
    }
  }

  lemma RatioSign(n: nat, d: nat)
    requires d > 0
    ensures n as real / d as real >= 0.0 && (n as real / d as real > 0.0 <==> n > 0)
  {
    var q := n as real / d as real;
    assert q * d as real == n as real;
  }

  lemma ProductSign(n: nat, d: nat)
    requires n > 0 && d > 0
    ensures n * d > 0
  {
  }
}
