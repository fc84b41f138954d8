/** Long division of decimals and how far its result is from the quotient. */
module DecimalDivision {
  import opened Options
  import opened Decimal

  const DIV_PRECISION: nat := 38

  /** Why long division stopped: no remainder, enough digits, no room for the next remainder, or no
      room for the next digit. */
  datatype Stop = Exact | Precision | RemainderFull | ResultFull

  /** After the last step: the digits, the remainder, the exponent of the last digit and how many
      digits were added. When there was no room for the next digit, the remainder is already scaled. */
  datatype Quotient = Quotient(result: nat, rem: nat, exponent: int, produced: nat, stop: Stop)

  predicate HasRoom(result: nat, rem: nat, den: nat, exponent: int)
    requires den > 0
  {
    FitsI128(result * 10) && FitsI128(result * 10 + Over(rem * 10, den)) && exponent - 1 >= I32_MIN
  }

  function LongDivision(den: nat, result: nat, rem: nat, exponent: int, produced: nat): Quotient
    requires den > 0
    decreases DIV_PRECISION - produced, rem
  {
    if rem == 0 then Quotient(result, rem, exponent, produced, Exact)
    else if produced >= DIV_PRECISION then Quotient(result, rem, exponent, produced, Precision)
    else if rem * 10 > U128_MAX then Quotient(result, rem, exponent, produced, RemainderFull)
    else if !HasRoom(result, rem, den, exponent) then Quotient(result, rem * 10, exponent, produced, ResultFull)
    else LongDivision(den, result * 10 + Over(rem * 10, den), Left(rem * 10, den), exponent - 1, produced + 1)
  }

  /** Doubling the remainder may overflow; checked arithmetic stops the program there. */
  datatype Outcome = Answer(d: Dec) | Overflow

  /** The digits after rounding, unless the remainder cannot be doubled or the digits cannot grow. */
  function RoundUp(q: Quotient, den: nat): bool {
    q.rem != 0 && q.rem * 2 >= den
  }

  function Finish(q: Quotient, den: nat, negative: bool): Outcome {
    if q.rem != 0 && q.rem * 2 > U128_MAX then Overflow
    else if RoundUp(q, den) && !FitsI128(q.result + 1) then Answer(NAN)
    else Answer(Normal(Signed(if RoundUp(q, den) then q.result + 1 else q.result, negative), q.exponent))
  }

  function Digits(num: nat, den: nat, exponent: int): Quotient
    requires den > 0
  {
    LongDivision(den, Over(num, den), Left(num, den), exponent, 0)
  }

  function Div(a: Dec, b: Dec): Outcome {
    if a.nan || b.nan || b.mantissa == 0 then Answer(NAN)
    else if a.mantissa == 0 then Answer(ZERO)
    else if !(I32_MIN <= a.exponent - b.exponent <= I32_MAX) then Answer(NAN)
    else DivMagnitudes(Abs(a.mantissa), Abs(b.mantissa), a.exponent - b.exponent, (a.mantissa < 0) != (b.mantissa < 0))
  }

  function DivMagnitudes(num: nat, den: nat, e: int, negative: bool): Outcome
    requires den > 0
  {
    Finish(Digits(num, den, e), den, negative)
  }

  lemma {:induction false} DivIs(a: Dec, b: Dec, num: nat, den: nat, e: int, negative: bool, r: Outcome)
    requires !a.nan && !b.nan && a.mantissa != 0 && b.mantissa != 0 && I32_MIN <= e <= I32_MAX
    requires num == Abs(a.mantissa) && den == Abs(b.mantissa) && e == a.exponent - b.exponent
    requires negative == ((a.mantissa < 0) != (b.mantissa < 0)) && r == DivMagnitudes(num, den, e, negative)
    ensures Div(a, b) == r
  {
  }

  // ----- the loop -----

  method Divide(a: Dec, b: Dec) returns (r: Outcome)
    requires FitsI128(-a.mantissa)
    ensures r == Div(a, b)
  {
    if a.nan || b.nan || b.mantissa == 0 {
      return Answer(NAN);
    }
    if a.mantissa == 0 {
      return Answer(ZERO);
    }
    var negative := (a.mantissa < 0) != (b.mantissa < 0);
    var num, den := Abs(a.mantissa), Abs(b.mantissa);
    var exponent := a.exponent - b.exponent;
    if !(I32_MIN <= exponent <= I32_MAX) {
      return Answer(NAN);
    }
    DivIs(a, b, num, den, exponent, negative, DivMagnitudes(num, den, exponent, negative));
    r := DivideMagnitudes(num, den, exponent, negative);
  }

  method DivideMagnitudes(num: nat, den: nat, e: int, negative: bool) returns (r: Outcome)
    requires den > 0
    ensures r == DivMagnitudes(num, den, e, negative)
  {
    var result, rem, exponent, q := DivideDigits(num, den, e);
    r := RoundAndSign(result, rem, exponent, den, negative, q);
  }

  method DivideDigits(num: nat, den: nat, e: int) returns (result: nat, rem: nat, exponent: int, ghost q: Quotient)
    requires den > 0
    ensures q == Digits(num, den, e) && q.result == result && q.rem == rem && q.exponent == exponent
  {
    exponent := e;
    result, rem := Over(num, den), Left(num, den);
    var produced: nat := 0;
    while rem != 0 && produced < DIV_PRECISION
      invariant LongDivision(den, result, rem, exponent, produced) == Digits(num, den, e)
      decreases DIV_PRECISION - produced
    {
      if rem * 10 > U128_MAX {
        q := Quotient(result, rem, exponent, produced, RemainderFull);
        return;
      }
      ghost var before := rem;
      rem := rem * 10;
      if !(FitsI128(result * 10) && FitsI128(result * 10 + Over(rem, den)) && exponent - 1 >= I32_MIN) {
        assert !HasRoom(result, before, den, exponent);
        q := Quotient(result, rem, exponent, produced, ResultFull);
        return;
      }
      exponent := exponent - 1;
      result := result * 10 + Over(rem, den);
      rem := Left(rem, den);
      produced := produced + 1;
    }
    q := Quotient(result, rem, exponent, produced, if rem == 0 then Exact else Precision);
  }

  /** Rounds half up on the first dropped digit. */
  method RoundAndSign(digits: nat, rem: nat, exponent: int, den: nat, negative: bool, ghost q: Quotient) returns (r: Outcome)
    requires q.result == digits && q.rem == rem && q.exponent == exponent
    ensures r == Finish(q, den, negative)
  {
    var result := digits;
    if rem != 0 {
      if rem * 2 > U128_MAX {
        return Overflow;
      }
      if rem * 2 >= den {
        if !FitsI128(result + 1) {
          return Answer(NAN);
        }
        result := result + 1;
      }
    }
    var d := Normalized(Dec(false, Signed(result, negative), exponent));
    return Answer(d);
  }

  // ----- what long division keeps -----

  /** The remainder before it was scaled for a digit that did not fit. */
  function Remainder(q: Quotient): nat {
    if q.stop.ResultFull? then q.rem / 10 else q.rem
  }

  /** The numerator times a power of ten is the digits times the denominator plus the remainder. */
  ghost predicate Divides(num: nat, den: nat, result: nat, rem: nat, k: nat) {
    rem < den && num * Pow(k) == result * den + rem
  }

  lemma {:induction false} Distribute(x: int, y: int, d: int)
    ensures (x + y) * d == x * d + y * d
  {
  }

  lemma {:induction false} TenTimes(x: int, d: int)
    ensures (x * 10) * d == 10 * (x * d)
  {
  }

  lemma {:induction false} NextDigit(num: nat, den: nat, result: nat, rem: nat, k: nat)
    requires den > 0 && Divides(num, den, result, rem, k)
    ensures Divides(num, den, result * 10 + Over(rem * 10, den), Left(rem * 10, den), k + 1)
  {
    var digit, left := Over(rem * 10, den), Left(rem * 10, den);
    OverAndLeft(rem * 10, den);
    TimesPow(num, k + 1);
    TenTimes(result, den);
    Distribute(result * 10, digit, den);
  }

  lemma {:induction false} LongDivisionKeeps(num: nat, den: nat, result: nat, rem: nat, e: int, k: nat)
    requires den > 0 && Divides(num, den, result, rem, k) && k <= DIV_PRECISION
    ensures var q := LongDivision(den, result, rem, e, k);
            && k <= q.produced <= DIV_PRECISION && q.exponent == e - (q.produced - k)
            && Divides(num, den, q.result, Remainder(q), q.produced)
            && (q.stop.Exact? <==> Remainder(q) == 0)
            && (q.stop.Precision? ==> q.produced == DIV_PRECISION)
            && (q.stop.ResultFull? ==> q.rem == 10 * Remainder(q))
    decreases DIV_PRECISION - k
  {
    if rem != 0 && k < DIV_PRECISION && rem * 10 <= U128_MAX && HasRoom(result, rem, den, e) {
      NextDigit(num, den, result, rem, k);
      LongDivisionKeeps(num, den, result * 10 + Over(rem * 10, den), Left(rem * 10, den), e - 1, k + 1);
    }
  }

  lemma {:induction false} DigitsKeep(num: nat, den: nat, e: int)
    requires den > 0
    ensures var q := Digits(num, den, e);
            && q.produced <= DIV_PRECISION && q.exponent == e - q.produced
            && Divides(num, den, q.result, Remainder(q), q.produced)
            && (q.stop.Exact? <==> Remainder(q) == 0)
            && (q.stop.Precision? ==> q.produced == DIV_PRECISION)
            && (q.stop.ResultFull? ==> q.rem == 10 * Remainder(q))
  {
    OverAndLeft(num, den);
    assert num * Pow(0) == num;
    LongDivisionKeeps(num, den, Over(num, den), Left(num, den), e, 0);
  }

  // ----- how far the rounded digits are off -----

  /** The digits after rounding. */
  function Final(q: Quotient, den: nat): nat {
    if RoundUp(q, den) then q.result + 1 else q.result
  }

  /** By how much the digits times the denominator exceed the scaled numerator. */
  function Excess(num: nat, den: nat, q: Quotient): int {
    Final(q, den) * den - num * Pow(q.produced)
  }

  /** No further off than half a digit, and a tie goes up. */
  predicate HalfUnit(excess: int, den: int) {
    2 * Abs(excess) <= den && (2 * Abs(excess) == den ==> excess > 0)
  }

  lemma {:induction false} ExcessIs(num: nat, den: nat, q: Quotient)
    requires Divides(num, den, q.result, Remainder(q), q.produced)
    ensures Excess(num, den, q) == if RoundUp(q, den) then den - Remainder(q) else 0 - Remainder(q)
  {
    Distribute(q.result, 1, den);
  }

  /** Exact without a remainder; within half a digit, ties up, when the digits or the remainder's
      room ran out; within one digit when the next digit had no room. There the scaled remainder is
      compared, so the half-digit bound holds exactly when that comparison comes out the same. */
  lemma {:induction false} DigitsError(num: nat, den: nat, e: int)
    requires den > 0
    ensures var q := Digits(num, den, e);
            var excess := Excess(num, den, q);
            && q.exponent == e - q.produced && q.produced <= DIV_PRECISION
            && (q.stop.Exact? <==> excess == 0)
            && (q.stop.Precision? || q.stop.RemainderFull? ==> HalfUnit(excess, den))
            && Abs(excess) < den
            && (q.stop.ResultFull? ==> (HalfUnit(excess, den) <==> (20 * Remainder(q) < den || 2 * Remainder(q) >= den)))
  {
    DigitsKeep(num, den, e);
    ExcessIs(num, den, Digits(num, den, e));
  }

  // ----- the error of the quotient as a number -----

  lemma {:induction false} SignedProduct(n: int, a: bool, d: int, b: bool, p: int)
    requires p == n * d
    ensures Signed(n, a != b) * Signed(d, b) == Signed(p, a)
  {
    if a {
      assert (-n) * d == -(n * d);
    }
    if b {
      assert (-n) * (-d) == n * d && n * (-d) == -(n * d);
    }
  }

  lemma {:induction false} SignedAbs(n: int)
    ensures Signed(Abs(n), n < 0) == n
  {
  }

  lemma {:induction false} ScaledDifference(x: int, y: int, e: int)
    ensures Scaled(x as real, e) - Scaled(y as real, e) == Scaled((x - y) as real, e)
  {
    ScaledSum((x - y) as real, y as real, e);
    assert (x - y) as real + y as real == x as real;
  }

  lemma {:induction false} ErrorAt(m: int, mb: int, product: int, scaled: int, last: int, e: int, vd: real, vb: real, va: real)
    requires product == m * mb
    requires vd == Scaled(m as real, last) && vb == Scaled(mb as real, e) && va == Scaled(scaled as real, last + e)
    ensures vd * vb - va == Scaled((product - scaled) as real, last + e)
  {
    ScaledProduct(m as real, last, mb as real, e);
    RealProduct(m, mb);
    ScaledDifference(product, scaled, last + e);
  }

  lemma {:induction false} SignedExcess(n: nat, ma: int, mb: int, p: nat, excess: int, product: int, scaled: int)
    requires excess == n * Abs(mb) - Abs(ma) * p
    requires product == Signed(n, (ma < 0) != (mb < 0)) * mb && scaled == ma * p
    ensures product - scaled == Signed(excess, ma < 0)
  {
    SignedProduct(n, ma < 0, Abs(mb), mb < 0, n * Abs(mb));
    SignedAbs(mb);
    SignedAbs(ma);
    SignedTimes(Abs(ma), ma < 0, p);
  }

  /** A result with mantissa `m` at exponent `last`, times the divisor, against the numerator. */
  lemma {:induction false} QuotientError(m: int, a: Dec, b: Dec, d: Dec, k: nat, last: int, product: int, scaled: int)
    requires product == m * b.mantissa && scaled == a.mantissa * Pow(k)
    requires d == Normal(m, last) && last == a.exponent - b.exponent - k
    ensures Value(d) * Value(b) - Value(a) == Scaled((product - scaled) as real, a.exponent - k)
  {
    NormalValue(m, last);
    Rescaled(a.mantissa, a.exponent, k);
    ErrorAt(m, b.mantissa, product, scaled, last, b.exponent, Value(d), Value(b), Value(a));
  }

  lemma {:induction false} SignedTimes(n: int, negative: bool, p: int)
    ensures Signed(n, negative) * p == Signed(n * p, negative)
  {
    if negative {
      assert (-n) * p == -(n * p);
    }
  }

  /** The error of a quotient that stopped this way, when its last digit is worth `unit`. */
  ghost predicate ErrorBounds(stop: Stop, error: real, unit: real) {
    && (stop.Exact? <==> error == 0.0)
    && (stop.Precision? || stop.RemainderFull? ==> -unit <= 2.0 * error <= unit)
    && -unit < error < unit
  }

  /** Dividing decimals: how far the answer times the divisor is from the numerator, in units of the
      last digit times the divisor. */
  lemma {:induction false} DivError(a: Dec, b: Dec, d: Dec, q: Quotient, num: nat, den: nat, e: int)
    requires !a.nan && !b.nan && a.mantissa != 0 && b.mantissa != 0 && I32_MIN <= e <= I32_MAX
    requires num == Abs(a.mantissa) && den == Abs(b.mantissa) && e == a.exponent - b.exponent
    requires FitsI128(-a.mantissa) && q == Digits(num, den, e) && Div(a, b) == Answer(d) && !d.nan
    ensures Canonical(d) && q.exponent == e - q.produced
    ensures ErrorBounds(q.stop, Value(d) * Value(b) - Value(a), Scaled(den as real, a.exponent - q.produced))
  {
    var negative := (a.mantissa < 0) != (b.mantissa < 0);
    DigitsError(num, den, e);
    DivIs(a, b, num, den, e, negative, DivMagnitudes(num, den, e, negative));
    FinishIs(q, den, negative, d);
    NumberError(q, Final(q, den), a, b, d, Excess(num, den, q));
  }

  lemma {:induction false} FinishIs(q: Quotient, den: nat, negative: bool, d: Dec)
    requires Finish(q, den, negative) == Answer(d) && !d.nan
    ensures d == Normal(Signed(Final(q, den), negative), q.exponent)
  {
  }

  lemma {:induction false} NumberError(q: Quotient, n: nat, a: Dec, b: Dec, d: Dec, excess: int)
    requires q.exponent == a.exponent - b.exponent - q.produced
    requires d == Normal(Signed(n, (a.mantissa < 0) != (b.mantissa < 0)), q.exponent)
    requires excess == n * Abs(b.mantissa) - Abs(a.mantissa) * Pow(q.produced)
    requires (q.stop.Exact? <==> excess == 0) && Abs(excess) < Abs(b.mantissa)
    requires q.stop.Precision? || q.stop.RemainderFull? ==> HalfUnit(excess, Abs(b.mantissa))
    ensures ErrorBounds(q.stop, Value(d) * Value(b) - Value(a), Scaled(Abs(b.mantissa) as real, a.exponent - q.produced))
  {
    var m := Signed(n, (a.mantissa < 0) != (b.mantissa < 0));
    var product, scaled := m * b.mantissa, a.mantissa * Pow(q.produced);
    SignedExcess(n, a.mantissa, b.mantissa, Pow(q.produced), excess, product, scaled);
    QuotientError(m, a, b, d, q.produced, q.exponent, product, scaled);
    Bounds(q, excess, a.mantissa < 0, Abs(b.mantissa), a.exponent - q.produced);
  }

  lemma {:induction false} Bounds(q: Quotient, excess: int, negative: bool, den: nat, e: int)
    requires (q.stop.Exact? <==> excess == 0) && Abs(excess) < den
    requires q.stop.Precision? || q.stop.RemainderFull? ==> HalfUnit(excess, den)
    ensures ErrorBounds(q.stop, Scaled(Signed(excess, negative) as real, e), Scaled(den as real, e))
  {
    ScaledBounds(Signed(excess, negative), den, e);
  }

  lemma {:induction false} ScaledBounds(x: int, den: nat, e: int)
    ensures x == 0 <==> Scaled(x as real, e) == 0.0
    ensures 2 * Abs(x) <= den ==> -Scaled(den as real, e) <= 2.0 * Scaled(x as real, e) <= Scaled(den as real, e)
    ensures Abs(x) < den ==> -Scaled(den as real, e) < Scaled(x as real, e) < Scaled(den as real, e)
  {
    var y := x as real;
    ScaledZero(e);
    ScaledOrder(y, 0.0, e);
    ScaledSum(y, y, e);
    ScaledSum(den as real, -(den as real), e);
    ScaledOrder(y + y, den as real, e);
    ScaledOrder(-(den as real), y + y, e);
    ScaledOrder(y, den as real, e);
    ScaledOrder(-(den as real), y, e);
  }

  /** The largest mantissa divided by seven has no room for one more digit and is rounded up, though
      the remainder is one seventh. */
  lemma {:induction false} RoundedTheWrongWay()
    ensures var q := Digits(I128_MAX, 7, 0);
            q.stop.ResultFull? && RoundUp(q, 7) && Remainder(q) == 1 && !HalfUnit(Excess(I128_MAX, 7, q), 7)
  {
    OverIsDivision(I128_MAX, 7);
    assert I128_MAX == 7 * 24305883351495604533098186245126300818 + 1;
    assert Over(I128_MAX, 7) == 24305883351495604533098186245126300818 && Left(I128_MAX, 7) == 1;
    assert !HasRoom(24305883351495604533098186245126300818, 1, 7, 0);
    DigitsError(I128_MAX, 7, 0);
    DigitsKeep(I128_MAX, 7, 0);
  }
}
