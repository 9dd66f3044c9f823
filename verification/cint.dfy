/**
 * C integer semantics on Dafny's unbounded integers: reduction modulo 2^N for
 * unsigned types (ISO/IEC 9899:2011 section 6.2.5p9 and 6.3.1.3p2), and the
 * truncating division and remainder of section 6.5.5p6.
 */
module CInt {

  const U32: nat := 0x1_0000_0000
  const U64: nat := 0x1_0000_0000_0000_0000
  const INT_MAX: int := 0x7fff_ffff
  const LONG_MAX: int := 0x7fff_ffff_ffff_ffff

  /** Conversion of any integer to `unsigned int`. */
  function Wrap32(x: int): (r: nat)
    ensures r < U32
    ensures 0 <= x < U32 ==> r == x
  {
    x % U32
  }

  /** Conversion of any integer to `u_int64_t` / `unsigned long`. */
  function Wrap64(x: int): (r: nat)
    ensures r < U64
    ensures 0 <= x < U64 ==> r == x
  {
    x % U64
  }

  /**
   * Conversion of any integer to a 32-bit two's-complement `int`, as the
   * compilers the programs target perform it: reduction modulo 2^32, with the
   * upper half read as negative.
   */
  function Int32(x: int): (r: int)
    ensures -INT_MAX - 1 <= r <= INT_MAX
    ensures Wrap32(r) == Wrap32(x)
    ensures 0 <= x <= INT_MAX ==> r == x
  {
    var w := Wrap32(x);
    if w <= INT_MAX then w else w - U32
  }

  function Abs(x: int): nat {
    if x < 0 then -x else x
  }

  function Min(a: int, b: int): int {
    if b < a then b else a
  }

  /** C's `/`: the quotient truncated toward zero. */
  function CDiv(a: int, b: int): (q: int)
    requires b != 0
    ensures 0 < b && 0 <= a ==> 0 <= q && q * b <= a < q * b + b
    ensures 0 < b && a < 0 ==> q <= 0 && q * b - b < a <= q * b
  {
    if b > 0 then
      if a >= 0 then
        DivFacts(a, b);
        a / b
      else
        DivFacts(-a, b);
        MulNeg(b, (-a) / b);
        -((-a) / b)
    else
      if a >= 0 then -(a / -b) else (-a) / (-b)
  }

  /** Dividing by a negative number negates the quotient by its magnitude. */
  lemma CDivNegativeDivisor(a: int, b: int)
    requires b < 0
    ensures CDiv(a, b) == -CDiv(a, -b)
  {
    if a < 0 {
      MulNeg(-b, (-a) / (-b));
    }
  }

  /** C's `%`: the remainder that goes with `CDiv`, carrying the dividend's sign. */
  function CRem(a: int, b: int): (r: int)
    requires b != 0
    ensures a == CDiv(a, b) * b + r
    ensures 0 < b ==> -b < r < b && (r == 0 || (r < 0) == (a < 0))
  {
    a - CDiv(a, b) * b
  }

  lemma MulNeg(m: int, b: int)
    ensures m * (-b) == -(m * b)
  {
  }

  lemma DivFacts(a: nat, b: nat)
    requires b > 0
    ensures (a / b) * b <= a < (a / b) * b + b
  {
  }

  lemma MulLe(a: int, b: int, c: nat)
    requires a <= b
    ensures a * c <= b * c
  {
  }

  /** On non-negative operands C's and Dafny's division agree. */
  lemma CDivNonNegative(a: int, b: int)
    requires 0 <= a && 0 < b
    ensures CDiv(a, b) == a / b && CRem(a, b) == a % b
  {
  }

  /** The quotient and remainder of a Euclidean division are unique. */
  lemma DivUnique(x: int, d: int, q: int, r: int)
    requires 0 < d && 0 <= r < d && x == q * d + r
    ensures x / d == q && x % d == r
  {
    var q', r' := x / d, x % d;
    assert (q - q') * d == r' - r;
    if q > q' {
      MulLe(1, q - q', d);
    } else if q < q' {
      MulLe(1, q' - q, d);
    }
  }

  /** Reducing a summand first does not change a sum's remainder. */
  lemma ModAddLeft(a: int, b: int, m: int)
    requires 0 < m
    ensures (a % m + b) % m == (a + b) % m
  {
    var q := a / m;
    var s, r := a + b, (a + b) % m;
    assert a == q * m + a % m;
    assert a % m + b == (s / m - q) * m + r;
    DivUnique(a % m + b, m, s / m - q, r);
  }

  /** Reducing a factor first does not change a product's remainder. */
  lemma ModMulRight(a: int, b: int, m: int)
    requires 0 < m
    ensures (a * (b % m)) % m == (a * b) % m
  {
    var q, r := b / m, b % m;
    var s := a * b;
    assert a * b == (a * q) * m + a * r by {
      assert b == q * m + r;
      assert a * (q * m + r) == a * (q * m) + a * r;
      assert a * (q * m) == (a * q) * m;
    }
    assert a * r == (s / m - a * q) * m + s % m;
    DivUnique(a * r, m, s / m - a * q, s % m);
  }

  /** Reducing a summand modulo 2^64 first does not change the wrapped sum. */
  lemma WrapAdd(a: int, b: int)
    ensures Wrap64(Wrap64(a) + b) == Wrap64(a + b)
  {
    ModAddLeft(a, b, U64);
  }

  /** `unsigned int` addition of converted operands is the conversion of the exact sum. */
  lemma Wrap32Add(a: int, b: int)
    ensures Wrap32(Wrap32(a) + Wrap32(b)) == Wrap32(a + b)
  {
    ModAddLeft(a, Wrap32(b), U32);
    ModAddLeft(b, a, U32);
  }

  /** `unsigned int` multiplication by a converted operand is the conversion of the exact product. */
  lemma Wrap32Mul(a: int, b: int)
    ensures Wrap32(a * Wrap32(b)) == Wrap32(a * b)
  {
    ModMulRight(a, b, U32);
  }

  /** `u_int64_t` multiplication by a converted operand is the conversion of the exact product. */
  lemma Wrap64Mul(a: int, b: int)
    ensures Wrap64(a * Wrap64(b)) == Wrap64(a * b)
  {
    ModMulRight(a, b, U64);
  }

  /** Reducing both operands modulo 2^64 first does not change the wrapped difference. */
  lemma WrapSub(a: int, b: int)
    ensures Wrap64(Wrap64(a) - Wrap64(b)) == Wrap64(a - b)
  {
    var qa, qb := a / U64, b / U64;
    var s, r := a - b, (a - b) % U64;
    assert a == qa * U64 + Wrap64(a) && b == qb * U64 + Wrap64(b);
    assert Wrap64(a) - Wrap64(b) == (s / U64 - qa + qb) * U64 + r;
    DivUnique(Wrap64(a) - Wrap64(b), U64, s / U64 - qa + qb, r);
  }

  /** Dividing by `b` and then by `c` is dividing by `b * c`. */
  lemma DivDiv(x: nat, b: nat, c: nat)
    requires 0 < b && 0 < c
    ensures x / b / c == x / (b * c)
  {
    var q, r := x / b, x % b;
    var q2, r2 := q / c, q % c;
    assert x == q * b + r;
    assert q == q2 * c + r2;
    assert q * b == q2 * (b * c) + r2 * b by {
      assert q * b == (q2 * c + r2) * b;
    }
    assert r2 * b + r < b * c by {
      MulLe(r2, c - 1, b);
    }
    DivUnique(x, b * c, q2, r2 * b + r);
  }

  /** Truncating division nests the same way. */
  lemma CDivCDiv(a: int, b: int, c: int)
    requires 0 < b && 0 < c
    ensures CDiv(CDiv(a, b), c) == CDiv(a, b * c)
  {
    if a >= 0 {
      DivDiv(a, b, c);
    } else {
      DivDiv(-a, b, c);
      var m := (-a) / b;
      assert CDiv(a, b) == -m;
      if m > 0 {
        assert CDiv(-m, c) == -(m / c);
      }
    }
  }

  /** Truncating division by a positive divisor is monotone. */
  lemma CDivMonotone(a1: int, a2: int, b: int)
    requires a1 <= a2 && 0 < b
    ensures CDiv(a1, b) <= CDiv(a2, b)
  {
    if 0 <= a1 {
      DivMonotone(a1, a2, b);
    } else if a2 < 0 {
      DivMonotone(-a2, -a1, b);
    }
  }

  lemma DivMonotone(a1: nat, a2: nat, b: nat)
    requires a1 <= a2 && 0 < b
    ensures a1 / b <= a2 / b
  {
    DivFacts(a1, b);
    DivFacts(a2, b);
    if a1 / b > a2 / b {
      MulLe(a2 / b + 1, a1 / b, b);
    }
  }

  function Pow(base: nat, e: nat): (p: nat)
    ensures base >= 1 ==> p >= 1
  {
    if e == 0 then 1 else base * Pow(base, e - 1)
  }

  /** For a base of at least two, a larger exponent gives a strictly larger power. */
  lemma {:induction false} PowStrictlyIncreasing(base: nat, e1: nat, e2: nat)
    requires 2 <= base && e1 < e2
    ensures Pow(base, e1) < Pow(base, e2)
  {
    if e2 == e1 + 1 {
      assert Pow(base, e2) == base * Pow(base, e1);
    } else {
      PowStrictlyIncreasing(base, e1, e2 - 1);
      assert Pow(base, e2) == base * Pow(base, e2 - 1);
    }
  }

  /** A larger base gives a power at least as large. */
  lemma {:induction false} PowBaseMonotone(b1: nat, b2: nat, e: nat)
    requires b1 <= b2
    ensures Pow(b1, e) <= Pow(b2, e)
  {
    if e > 0 {
      PowBaseMonotone(b1, b2, e - 1);
      MulLe(b1, b2, Pow(b1, e - 1));
      MulLe(Pow(b1, e - 1), Pow(b2, e - 1), b2);
    }
  }
}
