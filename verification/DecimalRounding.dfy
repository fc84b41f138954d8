/** Rounding a decimal to a scale, in four modes. */
module DecimalRounding {
  import opened Options
  import opened Decimal

  datatype Mode = Plain | Down | Up | Bankers

  /** The quotient of magnitudes, rounded. */
  function RoundedQuotient(q: nat, rem: nat, divisor: nat, mode: Mode): nat {
    if rem == 0 then q
    else
      var up := match mode
                case Down => false
                case Up => true
                case Plain => rem * 2 >= divisor
                case Bankers => rem * 2 > divisor || (rem * 2 == divisor && q % 2 == 1);
      if up then q + 1 else q
  }

  function Round(v: Dec, scale: int, mode: Mode): Dec {
    if v.nan then NAN
    else if v.exponent >= -scale then v
    else if !FitsI128(Pow(-scale - v.exponent)) then ZERO
    else
      var divisor := Pow(-scale - v.exponent);
      var abs := Abs(v.mantissa);
      Normal(Signed(RoundedQuotient(Over(abs, divisor), Left(abs, divisor), divisor, mode), v.mantissa < 0), -scale)
  }

  method Rounded(v: Dec, scale: int, mode: Mode) returns (r: Dec)
    ensures r == Round(v, scale, mode)
  {
    if v.nan {
      return NAN;
    }
    var target := -scale;
    if v.exponent >= target {
      return v;
    }
    var drop := target - v.exponent;
    if !FitsI128(Pow(drop)) {
      return ZERO;
    }
    var divisor := Pow(drop);
    var negative := v.mantissa < 0;
    var abs := Abs(v.mantissa);
    var quotient := Over(abs, divisor);
    var remainder := Left(abs, divisor);
    if remainder != 0 {
      var twice := remainder * 2;
      var roundUp := match mode
        case Down => false
        case Up => true
        case Plain => twice >= divisor
        case Bankers => twice > divisor || (twice == divisor && quotient % 2 == 1);
      if roundUp {
        quotient := quotient + 1;
      }
    }
    r := Normalized(Dec(false, Signed(quotient, negative), target));
  }

  // ----- what rounding a number to an integer means -----

  /** `n` is the integer that `x` rounds to. */
  ghost predicate RoundsTo(x: real, n: int, mode: Mode) {
    match mode
    case Down => if x >= 0.0 then n as real <= x < n as real + 1.0 else n as real - 1.0 < x <= n as real
    case Up => if x >= 0.0 then n as real - 1.0 < x <= n as real else n as real <= x < n as real + 1.0
    case Plain => Near(x, n) && (x == n as real + 0.5 ==> n < 0) && (x == n as real - 0.5 ==> n > 0)
    case Bankers => Near(x, n) && (x == n as real + 0.5 || x == n as real - 0.5 ==> n % 2 == 0)
  }

  ghost predicate Near(x: real, n: int) {
    n as real - 0.5 <= x <= n as real + 0.5
  }

  /** Rounding keeps the order, so a number rounds to one integer. */
  lemma {:induction false} RoundsToIsMonotone(x: real, m: int, y: real, n: int, mode: Mode)
    requires RoundsTo(x, m, mode) && RoundsTo(y, n, mode) && x <= y
    ensures m <= n
  {
  }

  /** An integer rounds to itself. */
  lemma {:induction false} IntegerRounds(n: int, mode: Mode)
    ensures RoundsTo(n as real, n, mode)
  {
  }

  lemma {:induction false} NegatedRounds(x: real, n: int, mode: Mode)
    requires RoundsTo(x, n, mode) && x >= 0.0
    ensures RoundsTo(-x, -n, mode)
  {
    assert (-n) as real == -(n as real);
  }

  /** The rounded quotient is what the exact quotient rounds to. */
  lemma {:induction false} QuotientRounds(x: real, abs: nat, q: nat, rem: nat, divisor: nat, mode: Mode)
    requires divisor > 0 && abs == q * divisor + rem && rem < divisor && x * divisor as real == abs as real
    ensures RoundsTo(x, RoundedQuotient(q, rem, divisor, mode), mode) && x >= 0.0
  {
    var f := x - q as real;
    FractionTimes(x, q, divisor, abs, rem);
    assert f * divisor as real == rem as real;
    FractionBounds(f, rem, divisor);
  }

  lemma {:induction false} FractionTimes(x: real, q: nat, divisor: nat, abs: nat, rem: nat)
    requires abs == q * divisor + rem && x * divisor as real == abs as real
    ensures (x - q as real) * divisor as real == rem as real
  {
    RealProduct(q, divisor);
  }

  lemma {:induction false} FractionBounds(f: real, rem: nat, divisor: nat)
    requires divisor > 0 && rem < divisor && f * divisor as real == rem as real
    ensures 0.0 <= f < 1.0 && (f == 0.0 <==> rem == 0)
    ensures (f < 0.5 <==> rem * 2 < divisor) && (f == 0.5 <==> rem * 2 == divisor)
  {
    var d := divisor as real;
    Order(f, d, rem as real, 0.0, 0.0);
    Order(f, d, rem as real, 1.0, d);
    Order(f, d, rem as real, 0.5, d / 2.0);
  }

  lemma {:induction false} Order(x: real, d: real, xd: real, y: real, yd: real)
    requires d > 0.0 && xd == x * d && yd == y * d
    ensures x < y <==> xd < yd
    ensures x == y <==> xd == yd
  {
    if x < y {
      assert (y - x) * d > 0.0;
    } else if y < x {
      assert (x - y) * d > 0.0;
    }
  }

  // ----- what rounding a decimal does -----

  /** The decimal in units of the last kept digit. */
  ghost function InUnits(v: Dec, scale: int): real {
    Scaled(v.mantissa as real, v.exponent + scale)
  }

  /** The rounded mantissa before normalising, at exponent `-scale`. */
  ghost function Units(v: Dec, scale: int, mode: Mode): int
    requires !v.nan
  {
    if v.exponent >= -scale then v.mantissa * Pow(v.exponent + scale)
    else if !FitsI128(Pow(-scale - v.exponent)) then 0
    else
      var divisor := Pow(-scale - v.exponent);
      Signed(RoundedQuotient(Over(Abs(v.mantissa), divisor), Left(Abs(v.mantissa), divisor), divisor, mode), v.mantissa < 0)
  }

  lemma {:induction false} UnitsTimes(v: Dec, scale: int, divisor: nat)
    requires v.exponent < -scale && divisor == Pow(-scale - v.exponent)
    ensures InUnits(v, scale) * divisor as real == v.mantissa as real
  {
    var n: nat := -scale - v.exponent;
    RealProduct(v.mantissa, divisor);
    ScaledTimes(v.mantissa as real, v.exponent + scale, divisor as real, (v.mantissa * divisor) as real);
    Rescaled(v.mantissa, 0, n);
    assert v.exponent + scale == 0 - n;
  }

  lemma {:induction false} RealAbs(m: int, x: real, d: nat)
    requires d > 0 && x * d as real == m as real
    ensures m >= 0 ==> x * d as real == Abs(m) as real
    ensures m < 0 ==> (-x) * d as real == Abs(m) as real
  {
    if m < 0 {
      assert (-x) * d as real == -(x * d as real);
    }
  }

  /** A decimal at a finer exponent rounds to the integer the mode says. */
  lemma {:induction false} FineRounds(v: Dec, scale: int, mode: Mode)
    requires !v.nan && v.exponent < -scale && FitsI128(Pow(-scale - v.exponent))
    ensures RoundsTo(InUnits(v, scale), Units(v, scale, mode), mode)
  {
    var divisor := Pow(-scale - v.exponent);
    UnitsTimes(v, scale, divisor);
    MantissaRounds(InUnits(v, scale), v.mantissa, divisor, mode);
  }

  lemma {:induction false} MantissaRounds(x: real, m: int, divisor: nat, mode: Mode)
    requires divisor > 0 && x * divisor as real == m as real
    ensures RoundsTo(x, Signed(RoundedQuotient(Over(Abs(m), divisor), Left(Abs(m), divisor), divisor, mode), m < 0), mode)
  {
    var abs := Abs(m);
    var q, rem := Over(abs, divisor), Left(abs, divisor);
    RealAbs(m, x, divisor);
    OverAndLeft(abs, divisor);
    if m < 0 {
      QuotientRounds(-x, abs, q, rem, divisor, mode);
      NegatedRounds(-x, RoundedQuotient(q, rem, divisor, mode), mode);
    } else {
      QuotientRounds(x, abs, q, rem, divisor, mode);
    }
  }

  lemma {:induction false} CoarseRounds(v: Dec, scale: int, mode: Mode)
    requires !v.nan && v.exponent >= -scale
    ensures InUnits(v, scale) == Units(v, scale, mode) as real
    ensures RoundsTo(InUnits(v, scale), Units(v, scale, mode), mode)
  {
    var n: nat := v.exponent + scale;
    Rescaled(v.mantissa, n, n);
    IntegerRounds(v.mantissa * Pow(n), mode);
  }

  lemma {:induction false} PowGrows(m: nat, n: nat)
    requires m <= n
    ensures Pow(m) <= Pow(n)
    decreases n
  {
    if m < n {
      PowGrows(m, n - 1);
    }
  }

  lemma {:induction false} PowNineteen()
    ensures Pow(19) == 1_0000_0000_0000_0000_000
  {
    assert Pow(5) == 100_000;
    PowSum(5, 5);
    assert Pow(4) == 10_000;
    PowSum(5, 4);
    PowSum(10, 9);
  }

  /** 38 digits can be dropped, 39 cannot. */
  lemma {:induction false} PowerLimit(n: nat)
    ensures FitsI128(Pow(n)) <==> n <= 38
    ensures n >= 39 ==> Pow(n) >= 1_000_000_000_000_000_000_000_000_000_000_000_000_000
  {
    PowNineteen();
    PowSum(19, 19);
    assert Pow(39) == 10 * Pow(38);
    if n <= 38 {
      PowGrows(n, 38);
    } else {
      PowGrows(39, n);
    }
  }

  /** The rounded decimal stands for that many units of the last kept digit. */
  lemma {:induction false} RoundIsOnGrid(v: Dec, scale: int, mode: Mode)
    requires !v.nan
    ensures !Round(v, scale, mode).nan && Value(Round(v, scale, mode)) == Scaled(Units(v, scale, mode) as real, -scale)
    ensures Canonical(v) ==> Canonical(Round(v, scale, mode))
  {
    if v.exponent >= -scale {
      CoarseRounds(v, scale, mode);
      ScaledTwice(v.mantissa as real, v.exponent + scale, -scale);
    } else if !FitsI128(Pow(-scale - v.exponent)) {
      ScaledZero(-scale);
      ScaledZero(0);
    } else {
      NormalValue(Units(v, scale, mode), -scale);
    }
  }

  /** With more than 38 digits to drop, less than a half of a unit is left. */
  lemma {:induction false} TinyUnits(v: Dec, scale: int)
    requires !v.nan && Abs(v.mantissa) <= I128_MAX && -scale - v.exponent > 38
    ensures -0.5 < InUnits(v, scale) < 0.5 && (InUnits(v, scale) == 0.0 <==> v.mantissa == 0)
  {
    var divisor := Pow(-scale - v.exponent);
    var x, d, m := InUnits(v, scale), divisor as real, v.mantissa as real;
    PowerLimit(-scale - v.exponent);
    UnitsTimes(v, scale, divisor);
    assert 2 * Abs(v.mantissa) < divisor;
    Order(x, d, m, 0.5, d / 2.0);
    Order(x, d, m, -0.5, -d / 2.0);
    Order(x, d, m, 0.0, 0.0);
  }

  /** Rounding up loses a number when more than 38 digits would have to be dropped. */
  predicate LosesUp(v: Dec, scale: int, mode: Mode) {
    mode.Up? && -scale - v.exponent > 38 && v.mantissa != 0
  }

  /** The decimal rounds to the integer the mode says, unless rounding up loses it. */
  lemma {:induction false} RoundIsCorrect(v: Dec, scale: int, mode: Mode)
    requires !v.nan && Abs(v.mantissa) <= I128_MAX
    ensures RoundsTo(InUnits(v, scale), Units(v, scale, mode), mode) <==> !LosesUp(v, scale, mode)
  {
    if v.exponent >= -scale {
      CoarseRounds(v, scale, mode);
    } else {
      PowerLimit(-scale - v.exponent);
      if -scale - v.exponent <= 38 {
        FineRounds(v, scale, mode);
      } else {
        TinyUnits(v, scale);
      }
    }
  }

  /** Rounding twice is rounding once. */
  lemma {:induction false} RoundTwice(v: Dec, scale: int, mode: Mode)
    ensures Round(Round(v, scale, mode), scale, mode) == Round(v, scale, mode)
  {
    if !v.nan {
      ZeroStays(scale, mode);
    }
  }

  lemma {:induction false} ZeroStays(scale: int, mode: Mode)
    ensures Round(ZERO, scale, mode) == ZERO
  {
  }

  lemma {:induction false} UnitsOfValue(v: Dec, scale: int)
    ensures InUnits(v, scale) == Scaled(Value(v), scale) && Value(v) == Scaled(InUnits(v, scale), -scale)
  {
    ScaledTwice(v.mantissa as real, v.exponent, scale);
    ScaledTwice(v.mantissa as real, v.exponent + scale, -scale);
  }

  /** Rounding keeps the order of numbers. */
  lemma {:induction false} RoundIsMonotone(v: Dec, w: Dec, scale: int, mode: Mode)
    requires !v.nan && !w.nan && Abs(v.mantissa) <= I128_MAX && Abs(w.mantissa) <= I128_MAX
    requires !LosesUp(v, scale, mode) && !LosesUp(w, scale, mode) && Value(v) <= Value(w)
    ensures Value(Round(v, scale, mode)) <= Value(Round(w, scale, mode))
  {
    UnitsOfValue(v, scale);
    UnitsOfValue(w, scale);
    ScaledOrder(Value(v), Value(w), scale);
    RoundIsCorrect(v, scale, mode);
    RoundIsCorrect(w, scale, mode);
    RoundsToIsMonotone(InUnits(v, scale), Units(v, scale, mode), InUnits(w, scale), Units(w, scale, mode), mode);
    RoundIsOnGrid(v, scale, mode);
    RoundIsOnGrid(w, scale, mode);
    ScaledOrder(Units(v, scale, mode) as real, Units(w, scale, mode) as real, -scale);
  }

  /** Plain and bankers rounding stay within half a unit; down and up bound the magnitude from below
      and above by less than one unit. */
  lemma {:induction false} RoundError(v: Dec, scale: int, mode: Mode)
    requires !v.nan && Abs(v.mantissa) <= I128_MAX && !LosesUp(v, scale, mode)
    ensures var error, unit := Value(Round(v, scale, mode)) - Value(v), Scaled(1.0, -scale);
            && (mode.Plain? || mode.Bankers? ==> -unit <= 2.0 * error <= unit)
            && -unit < error < unit
            && (mode.Down? ==> if Value(v) >= 0.0 then error <= 0.0 else error >= 0.0)
            && (mode.Up? ==> if Value(v) >= 0.0 then error >= 0.0 else error <= 0.0)
  {
    var x, n := InUnits(v, scale), Units(v, scale, mode) as real;
    RoundIsCorrect(v, scale, mode);
    RoundIsOnGrid(v, scale, mode);
    UnitsOfValue(v, scale);
    ErrorScales(n - x, -scale);
    ScaledSum(n - x, x, -scale);
    assert n - x + x == n;
    ScaledZero(-scale);
    ScaledOrder(x, 0.0, -scale);
  }

  lemma {:induction false} ErrorScales(f: real, e: int)
    ensures -1.0 < f < 1.0 ==> -Scaled(1.0, e) < Scaled(f, e) < Scaled(1.0, e)
    ensures -0.5 <= f <= 0.5 ==> -Scaled(1.0, e) <= 2.0 * Scaled(f, e) <= Scaled(1.0, e)
    ensures (f <= 0.0 <==> Scaled(f, e) <= 0.0) && (f >= 0.0 <==> Scaled(f, e) >= 0.0)
  {
    ScaledZero(e);
    ScaledOrder(f, 0.0, e);
    ScaledSum(1.0, -1.0, e);
    ScaledOrder(f, 1.0, e);
    ScaledOrder(-1.0, f, e);
    ScaledSum(f, f, e);
    ScaledOrder(f + f, 1.0, e);
    ScaledOrder(-1.0, f + f, e);
  }

  /** A tie goes away from zero in plain rounding and to the even digit in bankers rounding. */
  lemma {:induction false} TiesAre(v: Dec, scale: int, n: int)
    requires !v.nan && Abs(v.mantissa) <= I128_MAX && InUnits(v, scale) == n as real + 0.5
    ensures Units(v, scale, Plain) == (if n >= 0 then n + 1 else n)
    ensures Units(v, scale, Bankers) == (if n % 2 == 0 then n else n + 1)
  {
    RoundIsCorrect(v, scale, Plain);
    RoundIsCorrect(v, scale, Bankers);
    TieRounds(n, Units(v, scale, Plain), Plain);
    TieRounds(n, Units(v, scale, Bankers), Bankers);
  }

  lemma {:induction false} TieRounds(n: int, m: int, mode: Mode)
    requires mode.Plain? || mode.Bankers?
    requires RoundsTo(n as real + 0.5, m, mode)
    ensures m == if if mode.Plain? then n >= 0 else n % 2 != 0 then n + 1 else n
  {
    assert m == n || m == n + 1;
  }
}
