/** Exact base-ten arithmetic: a 128-bit mantissa times a power of ten, or NaN. */
module Decimal {
  import opened Options

  const I128_MAX: int := 0x7FFF_FFFF_FFFF_FFFF_FFFF_FFFF_FFFF_FFFF
  const U128_MAX: int := 0xFFFF_FFFF_FFFF_FFFF_FFFF_FFFF_FFFF_FFFF
  const I32_MIN: int := -0x8000_0000
  const I32_MAX: int := 0x7FFF_FFFF

  predicate FitsI128(n: int) {
    -I128_MAX - 1 <= n <= I128_MAX
  }

  datatype Dec = Dec(nan: bool, mantissa: int, exponent: int) {
    function Negated(): Dec {
      if nan then NAN else Dec(false, -mantissa, exponent)
    }
  }

  const NAN := Dec(true, 0, 0)
  const ZERO := Dec(false, 0, 0)

  function Abs(n: int): nat {
    if n < 0 then -n else n
  }

  function Signed(n: int, negative: bool): int {
    if negative then -n else n
  }

  // ----- whole division -----

  /** Whole division and its remainder, named so that proofs can follow one step at a time. */
  function Over(n: nat, d: nat): nat
    requires d > 0
  {
    if n < d then 0 else 1 + Over(n - d, d)
  }

  function Left(n: nat, d: nat): (r: nat)
    requires d > 0
    ensures r < d && r <= n
  {
    if n < d then n else Left(n - d, d)
  }

  lemma {:induction false} OverAndLeft(n: nat, d: nat)
    requires d > 0
    ensures Over(n, d) * d + Left(n, d) == n
    decreases n
  {
    if n >= d {
      OverAndLeft(n - d, d);
      OneMore(Over(n - d, d), d);
    } else {
      OneMore(-1, d);
    }
  }

  lemma {:induction false} OneMore(k: int, d: int)
    ensures (1 + k) * d == d + k * d
  {
  }

  /** They are the quotient and the remainder of integer division. */
  lemma {:induction false} OverIsDivision(n: nat, d: nat)
    requires d > 0
    ensures Over(n, d) == n / d && Left(n, d) == n % d
  {
    OverAndLeft(n, d);
    SameDivision(n, d, Over(n, d), Left(n, d));
  }

  lemma {:induction false} SameDivision(n: nat, d: nat, q: nat, r: nat)
    requires d > 0 && n == q * d + r && r < d
    ensures q == n / d && r == n % d
  {
    var k := n / d;
    assert n == k * d + n % d;
    if q < k {
      LessTimes(q, k, d);
    } else if k < q {
      LessTimes(k, q, d);
    }
  }

  lemma {:induction false} LessTimes(q: nat, k: nat, d: nat)
    requires q < k
    ensures q * d + d <= k * d
  {
    OneMore(q, d);
  }

  // ----- powers of ten -----

  function Pow(n: nat): (p: nat)
    ensures p >= 1
  {
    if n == 0 then 1 else 10 * Pow(n - 1)
  }

  /** `x` times ten to the power `e`. */
  ghost function Scaled(x: real, e: int): real
    decreases Abs(e)
  {
    if e == 0 then x else if e > 0 then Scaled(10.0 * x, e - 1) else Scaled(x / 10.0, e + 1)
  }

  /** The number a decimal stands for. */
  ghost function Value(d: Dec): real {
    Scaled(d.mantissa as real, d.exponent)
  }

  lemma {:induction false} ScaledStep(x: real, e: int)
    ensures Scaled(10.0 * x, e) == Scaled(x, e + 1)
    decreases Abs(e)
  {
    if e < 0 {
      assert 10.0 * x / 10.0 == x;
    }
  }

  lemma {:induction false} ScaledSum(x: real, y: real, e: int)
    ensures Scaled(x + y, e) == Scaled(x, e) + Scaled(y, e)
    decreases Abs(e)
  {
    if e > 0 {
      assert 10.0 * (x + y) == 10.0 * x + 10.0 * y;
      ScaledSum(10.0 * x, 10.0 * y, e - 1);
    } else if e < 0 {
      assert (x + y) / 10.0 == x / 10.0 + y / 10.0;
      ScaledSum(x / 10.0, y / 10.0, e + 1);
    }
  }

  lemma {:induction false} ScaledOrder(x: real, y: real, e: int)
    ensures x < y <==> Scaled(x, e) < Scaled(y, e)
    ensures x == y <==> Scaled(x, e) == Scaled(y, e)
    decreases Abs(e)
  {
    if e > 0 {
      ScaledOrder(10.0 * x, 10.0 * y, e - 1);
    } else if e < 0 {
      ScaledOrder(x / 10.0, y / 10.0, e + 1);
    }
  }

  lemma {:induction false} ScaledTwice(x: real, d: int, e: int)
    ensures Scaled(Scaled(x, d), e) == Scaled(x, d + e)
    decreases Abs(d)
  {
    if d > 0 {
      ScaledTwice(10.0 * x, d - 1, e);
      ScaledStep(x, d - 1 + e);
    } else if d < 0 {
      ScaledTwice(x / 10.0, d + 1, e);
      ScaledStep(x / 10.0, d + e);
    }
  }

  lemma {:induction false} TenOut(x: real, y: real, p: real)
    requires p == x * y
    ensures 10.0 * p == (10.0 * x) * y && p / 10.0 == (x / 10.0) * y
  {
  }

  lemma {:induction false} ScaledTimes(x: real, e: int, y: real, p: real)
    requires p == x * y
    ensures Scaled(x, e) * y == Scaled(p, e)
    decreases Abs(e)
  {
    TenOut(x, y, p);
    if e > 0 {
      ScaledTimes(10.0 * x, e - 1, y, 10.0 * p);
    } else if e < 0 {
      ScaledTimes(x / 10.0, e + 1, y, p / 10.0);
    }
  }

  lemma {:induction false} ScaledProduct(x: real, d: int, y: real, e: int)
    ensures Scaled(x, d) * Scaled(y, e) == Scaled(x * y, d + e)
  {
    var q, p := Scaled(y, e), x * y;
    ScaledTimes(x, d, q, x * q);
    Commutes(y, x);
    ScaledTimes(y, e, x, p);
    Commutes(x, q);
    assert x * q == Scaled(p, e);
    ScaledTwice(p, e, d);
  }

  lemma {:induction false} Commutes(x: real, y: real)
    ensures x * y == y * x
  {
  }

  lemma {:induction false} TimesTen(m: int, p: int)
    ensures m * (10 * p) == 10 * (m * p)
  {
  }

  lemma {:induction false} TimesPow(m: int, n: nat)
    requires n > 0
    ensures m * Pow(n) == 10 * (m * Pow(n - 1))
  {
    TimesTen(m, Pow(n - 1));
  }

  lemma {:induction false} PowSum(m: nat, n: nat)
    ensures Pow(m + n) == Pow(m) * Pow(n)
    decreases n
  {
    if n > 0 {
      PowSum(m, n - 1);
      TimesPow(Pow(m), n);
    }
  }

  /** A decimal written with a lower exponent has the same value. */
  lemma {:induction false} Rescaled(m: int, e: int, n: nat)
    ensures Scaled((m * Pow(n)) as real, e - n) == Scaled(m as real, e)
    decreases n
  {
    if n > 0 {
      var k := m * Pow(n - 1);
      TimesPow(m, n);
      Rescaled(m, e, n - 1);
      assert (10 * k) as real == 10.0 * k as real;
      ScaledStep(k as real, e - n);
    }
  }

  // ----- normal form -----

  predicate Canonical(d: Dec) {
    if d.nan then d == NAN else if d.mantissa == 0 then d.exponent == 0 else d.mantissa % 10 != 0
  }

  /** Trailing zeros moved into the exponent. */
  function Normal(m: int, e: int): (d: Dec)
    ensures !d.nan && Canonical(d) && Abs(d.mantissa) <= Abs(m)
    ensures m != 0 ==> d.mantissa != 0 && d.exponent >= e
    decreases Abs(m)
  {
    if m == 0 then ZERO else if m % 10 == 0 then Normal(m / 10, e + 1) else Dec(false, m, e)
  }

  /** The `i32` exponent is taken to have room for the zeros. */
  method Normalized(d: Dec) returns (r: Dec)
    ensures r == if d.nan then NAN else Normal(d.mantissa, d.exponent)
  {
    if d.nan {
      return NAN;
    }
    if d.mantissa == 0 {
      return ZERO;
    }
    var mantissa, exponent := d.mantissa, d.exponent;
    while mantissa % 10 == 0
      invariant mantissa != 0 && Normal(mantissa, exponent) == Normal(d.mantissa, d.exponent)
      decreases Abs(mantissa)
    {
      mantissa := mantissa / 10;
      exponent := exponent + 1;
    }
    return Dec(false, mantissa, exponent);
  }

  lemma {:induction false} NormalValue(m: int, e: int)
    ensures Value(Normal(m, e)) == Scaled(m as real, e)
    decreases Abs(m)
  {
    if m == 0 {
      ScaledZero(e);
    } else if m % 10 == 0 {
      NormalValue(m / 10, e + 1);
      assert m as real == 10.0 * (m / 10) as real;
      ScaledStep((m / 10) as real, e);
    }
  }

  lemma {:induction false} ScaledZero(e: int)
    ensures Scaled(0.0, e) == 0.0
    decreases Abs(e)
  {
    if e > 0 {
      ScaledZero(e - 1);
    } else if e < 0 {
      ScaledZero(e + 1);
    }
  }

  /** Putting a power of ten back and normalising again gives the same form. */
  lemma {:induction false} NormalScaled(m: int, e: int, n: nat)
    requires m != 0
    ensures m * Pow(n) != 0 && Normal(m * Pow(n), e - n) == Normal(m, e)
    decreases n
  {
    if n > 0 {
      var k := m * Pow(n - 1);
      TimesPow(m, n);
      NormalScaled(m, e, n - 1);
      assert 10 * k / 10 == k && 10 * k % 10 == 0;
    }
  }

  /** A number has one normal form. */
  lemma {:induction false} NormalIsUnique(a: Dec, b: Dec)
    requires Canonical(a) && Canonical(b) && !a.nan && !b.nan
    ensures Value(a) == Value(b) <==> a == b
  {
    if Value(a) == Value(b) {
      if a.exponent >= b.exponent {
        SameMantissa(a, b);
      } else {
        SameMantissa(b, a);
      }
    }
  }

  lemma {:induction false} SameMantissa(a: Dec, b: Dec)
    requires Canonical(a) && Canonical(b) && !a.nan && !b.nan && Value(a) == Value(b) && a.exponent >= b.exponent
    ensures a == b
  {
    var n := a.exponent - b.exponent;
    Rescaled(a.mantissa, a.exponent, n);
    ScaledOrder((a.mantissa * Pow(n)) as real, b.mantissa as real, b.exponent);
    assert a.mantissa * Pow(n) == b.mantissa;
    if n > 0 {
      TimesPow(a.mantissa, n);
      TenDivides(b.mantissa, a.mantissa * Pow(n - 1));
    }
  }

  lemma {:induction false} TenDivides(n: int, k: int)
    requires n == 10 * k
    ensures n % 10 == 0 && (n == 0 <==> k == 0)
  {
  }

  // ----- sums and products -----

  /** Times a power of ten, unless the power or the product overflows. */
  function ScaleUp(m: int, n: nat): Option<int> {
    if FitsI128(Pow(n)) && FitsI128(m * Pow(n)) then Some(m * Pow(n)) else None
  }

  datatype Aligned = Aligned(left: int, right: int, exponent: int)

  /** Both mantissas at the lower exponent. */
  function Align(a: Dec, b: Dec): Option<Aligned> {
    var e := if a.exponent <= b.exponent then a.exponent else b.exponent;
    match (ScaleUp(a.mantissa, a.exponent - e), ScaleUp(b.mantissa, b.exponent - e))
    case (Some(l), Some(r)) => Some(Aligned(l, r, e))
    case _ => None
  }

  function Add(a: Dec, b: Dec): Dec {
    if a.nan || b.nan then NAN
    else
      match Align(a, b)
      case None => NAN
      case Some(x) => if FitsI128(x.left + x.right) then Normal(x.left + x.right, x.exponent) else NAN
  }

  function Sub(a: Dec, b: Dec): Dec {
    Add(a, b.Negated())
  }

  function Mul(a: Dec, b: Dec): Dec {
    if a.nan || b.nan then NAN
    else if FitsI128(a.mantissa * b.mantissa) && I32_MIN <= a.exponent + b.exponent <= I32_MAX
    then Normal(a.mantissa * b.mantissa, a.exponent + b.exponent)
    else NAN
  }

  datatype Ordering = Less | Equal | Greater

  /** The order of two decimals that can be aligned; the floating-point fallback is not modelled. */
  function Compare(a: Dec, b: Dec): Option<Ordering> {
    match Align(a, b)
    case None => None
    case Some(x) => Some(if x.left < x.right then Less else if x.left == x.right then Equal else Greater)
  }

  lemma {:induction false} AlignedValues(a: Dec, b: Dec)
    requires Align(a, b).Some?
    ensures var x := Align(a, b).value;
            Scaled(x.left as real, x.exponent) == Value(a) && Scaled(x.right as real, x.exponent) == Value(b)
  {
    var e := Align(a, b).value.exponent;
    Rescaled(a.mantissa, a.exponent, a.exponent - e);
    Rescaled(b.mantissa, b.exponent, b.exponent - e);
  }

  /** A sum that is not NaN is the exact sum, in normal form. */
  lemma {:induction false} AddIsExact(a: Dec, b: Dec)
    ensures Canonical(Add(a, b))
    ensures !Add(a, b).nan ==> Value(Add(a, b)) == Value(a) + Value(b)
  {
    if !Add(a, b).nan {
      var x := Align(a, b).value;
      AlignedValues(a, b);
      NormalValue(x.left + x.right, x.exponent);
      ScaledSum(x.left as real, x.right as real, x.exponent);
      assert (x.left + x.right) as real == x.left as real + x.right as real;
    }
  }

  lemma {:induction false} NegatedValue(d: Dec)
    requires !d.nan
    ensures Value(d.Negated()) == -Value(d)
  {
    var x := d.mantissa as real;
    assert (-d.mantissa) as real == -x;
    ScaledSum(x, -x, d.exponent);
    ScaledZero(d.exponent);
  }

  lemma {:induction false} SubIsExact(a: Dec, b: Dec)
    requires FitsI128(-b.mantissa)
    ensures Canonical(Sub(a, b))
    ensures !Sub(a, b).nan ==> Value(Sub(a, b)) == Value(a) - Value(b)
  {
    AddIsExact(a, b.Negated());
    if !Sub(a, b).nan {
      NegatedValue(b);
    }
  }

  /** A product that is not NaN is the exact product, in normal form. */
  lemma {:induction false} MulIsExact(a: Dec, b: Dec)
    ensures Canonical(Mul(a, b))
    ensures !Mul(a, b).nan <==> !a.nan && !b.nan && FitsI128(a.mantissa * b.mantissa) && I32_MIN <= a.exponent + b.exponent <= I32_MAX
    ensures !Mul(a, b).nan ==> Value(Mul(a, b)) == Value(a) * Value(b)
  {
    if !Mul(a, b).nan {
      MulIsNormal(a, b, a.mantissa * b.mantissa);
      ProductValue(a.mantissa, b.mantissa, a.mantissa * b.mantissa, a.exponent, b.exponent);
    }
  }

  lemma {:induction false} MulIsNormal(a: Dec, b: Dec, p: int)
    requires !Mul(a, b).nan && p == a.mantissa * b.mantissa
    ensures Mul(a, b) == Normal(p, a.exponent + b.exponent)
  {
  }

  lemma {:induction false} ProductValue(m: int, n: int, p: int, d: int, e: int)
    requires p == m * n
    ensures Value(Normal(p, d + e)) == Scaled(m as real, d) * Scaled(n as real, e)
  {
    NormalValue(p, d + e);
    ScaledProduct(m as real, d, n as real, e);
    RealProduct(m, n);
  }

  lemma {:induction false} RealProduct(m: int, n: int)
    ensures (m * n) as real == m as real * n as real
  {
  }

  /** Whenever the two can be aligned, the order found is the order of the numbers. */
  lemma {:induction false} CompareIsTrue(a: Dec, b: Dec)
    requires Align(a, b).Some?
    ensures Compare(a, b) == Some(if Value(a) < Value(b) then Less else if Value(a) == Value(b) then Equal else Greater)
  {
    var x := Align(a, b).value;
    AlignedValues(a, b);
    ScaledOrder(x.left as real, x.right as real, x.exponent);
  }
}
