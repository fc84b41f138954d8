/** When decimal arithmetic has an answer at all. */
module DecimalRange {
  import opened Options
  import opened Decimal
  import opened DecimalDivision
  import opened DecimalRounding

  /** A number that is a 128-bit count of units of ten to the power `e`. */
  ghost predicate InRange(x: real, e: int) {
    (-I128_MAX - 1) as real <= Scaled(x, -e) <= I128_MAX as real
  }

  function Lower(a: Dec, b: Dec): int {
    if a.exponent <= b.exponent then a.exponent else b.exponent
  }

  lemma {:induction false} UnitsOf(d: Dec, n: nat)
    ensures Scaled(Value(d), n - d.exponent) == (d.mantissa * Pow(n)) as real
  {
    Rescaled(d.mantissa, d.exponent, n);
    ScaledTwice((d.mantissa * Pow(n)) as real, d.exponent - n, n - d.exponent);
  }

  lemma {:induction false} ScaleUpIs(d: Dec, n: nat)
    ensures ScaleUp(d.mantissa, n).Some? <==> n <= 38 && InRange(Value(d), d.exponent - n)
    ensures ScaleUp(d.mantissa, n).Some? ==> ScaleUp(d.mantissa, n).value as real == Scaled(Value(d), n - d.exponent)
  {
    PowerLimit(n);
    UnitsOf(d, n);
    RangeOfInt(d.mantissa * Pow(n));
  }

  lemma {:induction false} RangeOfInt(n: int)
    ensures FitsI128(n) <==> (-I128_MAX - 1) as real <= n as real <= I128_MAX as real
  {
  }

  /** Two decimals can be aligned exactly when their exponents are at most 38 apart and both numbers
      are in range at the lower one. */
  lemma {:induction false} AlignIs(a: Dec, b: Dec)
    ensures Align(a, b).Some?
       <==> Abs(a.exponent - b.exponent) <= 38 && InRange(Value(a), Lower(a, b)) && InRange(Value(b), Lower(a, b))
  {
    var e := Lower(a, b);
    ScaleUpIs(a, a.exponent - e);
    ScaleUpIs(b, b.exponent - e);
    UnitsOf(a, 0);
    UnitsOf(b, 0);
  }

  /** A sum has an answer exactly when, besides, the exact sum is in range at the lower exponent. */
  lemma {:induction false} AddAnswers(a: Dec, b: Dec)
    ensures !Add(a, b).nan <==> !a.nan && !b.nan && Align(a, b).Some? && InRange(Value(a) + Value(b), Lower(a, b))
  {
    if Align(a, b).Some? {
      var x := Align(a, b).value;
      AlignedValues(a, b);
      ScaledSum(x.left as real, x.right as real, x.exponent);
      assert (x.left + x.right) as real == x.left as real + x.right as real;
      ScaledTwice((x.left + x.right) as real, x.exponent, -x.exponent);
      RangeOfInt(x.left + x.right);
    }
  }

  /** Adding zero changes nothing exactly when zero and the number can be aligned; otherwise the sum
      is NaN. */
  lemma {:induction false} ZeroIsNeutral(v: Dec)
    requires Canonical(v) && !v.nan && FitsI128(v.mantissa)
    ensures Add(ZERO, v) == v <==> -38 <= v.exponent <= 38 && (v.exponent > 0 ==> InRange(Value(v), 0))
    ensures Add(ZERO, v) != v ==> Add(ZERO, v) == NAN
  {
    var e := Lower(ZERO, v);
    ScaledZero(0);
    ScaledZero(-e);
    UnitsOf(v, 0);
    RangeOfInt(v.mantissa);
    AlignIs(ZERO, v);
    AddAnswers(ZERO, v);
    AddIsExact(ZERO, v);
    if !Add(ZERO, v).nan {
      NormalIsUnique(Add(ZERO, v), v);
    }
  }

  lemma {:induction false} DoublingFits(num: nat, den: nat, e: int)
    requires 0 < den <= I128_MAX + 1
    ensures var q := Digits(num, den, e); q.rem * 2 > U128_MAX <==> q.stop.ResultFull? && 20 * Remainder(q) > U128_MAX
  {
    DigitsKeep(num, den, e);
  }

  lemma {:induction false} FinishAnswers(q: Quotient, den: nat, negative: bool, r: Outcome)
    requires r == Finish(q, den, negative)
    ensures r == Overflow <==> q.rem * 2 > U128_MAX
    ensures r == Answer(NAN) <==> q.rem * 2 <= U128_MAX && RoundUp(q, den) && q.result >= I128_MAX
  {
  }

  lemma {:induction false} MagnitudesAnswer(num: nat, den: nat, e: int, negative: bool, q: Quotient, r: Outcome)
    requires 0 < den <= I128_MAX + 1 && q == Digits(num, den, e) && r == DivMagnitudes(num, den, e, negative)
    ensures r == Overflow <==> q.stop.ResultFull? && 20 * Remainder(q) > U128_MAX
    ensures r == Answer(NAN) <==> r != Overflow && RoundUp(q, den) && q.result >= I128_MAX
  {
    DoublingFits(num, den, e);
    FinishAnswers(q, den, negative, r);
  }

  /** NaN, a zero divisor and exponents too far apart. */
  predicate Refused(a: Dec, b: Dec) {
    a.nan || b.nan || b.mantissa == 0 || (a.mantissa != 0 && !(I32_MIN <= a.exponent - b.exponent <= I32_MAX))
  }

  /** The digits of a quotient. */
  function QuotientOf(a: Dec, b: Dec): Quotient
    requires !Refused(a, b)
  {
    Digits(Abs(a.mantissa), Abs(b.mantissa), a.exponent - b.exponent)
  }

  /** Every two decimals that are not refused have a quotient unless the remainder of a digit without
      room cannot be doubled, which is an overflow, or the digits cannot be rounded up, which is NaN. */
  lemma {:induction false} DivAnswers(a: Dec, b: Dec)
    requires FitsI128(-a.mantissa) && FitsI128(b.mantissa)
    ensures Div(a, b) == Overflow
       <==> !Refused(a, b) && QuotientOf(a, b).stop.ResultFull? && 20 * Remainder(QuotientOf(a, b)) > U128_MAX
    ensures Div(a, b) == Answer(NAN)
       <==> (|| Refused(a, b)
             || (Div(a, b) != Overflow && RoundUp(QuotientOf(a, b), Abs(b.mantissa)) && QuotientOf(a, b).result >= I128_MAX))
  {
    if !Refused(a, b) && a.mantissa != 0 {
      var num, den, e := Abs(a.mantissa), Abs(b.mantissa), a.exponent - b.exponent;
      var negative := (a.mantissa < 0) != (b.mantissa < 0);
      DivIs(a, b, num, den, e, negative, DivMagnitudes(num, den, e, negative));
      MagnitudesAnswer(num, den, e, negative, QuotientOf(a, b), Div(a, b));
    } else if !Refused(a, b) {
      NothingDivided(Abs(b.mantissa), a.exponent - b.exponent);
    }
  }

  lemma {:induction false} NothingDivided(den: nat, e: int)
    requires den > 0
    ensures Digits(0, den, e) == Quotient(0, 0, e, 0, Exact)
  {
    assert Over(0, den) == 0 && Left(0, den) == 0;
  }

  // ----- a quotient that overflows, and one that is rounded the wrong way -----

  const TEN_37: nat := 10_000_000_000_000_000_000_000_000_000_000_000_000
  const NUMERATOR: nat := 10 * TEN_37 + 2
  const DENOMINATOR: nat := 3 * TEN_37 + 1

  lemma {:induction false} DivisionIs(n: nat, d: nat, q: nat, r: nat)
    requires d > 0 && n == q * d + r && r < d
    ensures Over(n, d) == q && Left(n, d) == r
  {
    OverIsDivision(n, d);
    SameDivision(n, d, q, r);
  }

  lemma {:induction false} DigitIs(den: nat, result: nat, rem: nat, e: int, k: nat, digit: nat, left: nat)
    requires rem * 10 == digit * den + left && left < den && 0 < rem && rem * 10 <= U128_MAX
    requires k < DIV_PRECISION && FitsI128(result * 10 + digit) && e - 1 >= I32_MIN
    ensures LongDivision(den, result, rem, e, k) == LongDivision(den, result * 10 + digit, left, e - 1, k + 1)
  {
    DivisionIs(rem * 10, den, digit, left);
    assert HasRoom(result, rem, den, e);
  }

  lemma {:induction false} ThreeMore(result: nat, rem: nat, p: nat)
    requires 3 * result == 10 * p - 1 && 3 * (TEN_37 - rem) == 4 * p - 1 && 100 * p <= TEN_37
    ensures 0 < rem && rem * 10 <= U128_MAX && 0 <= rem * 10 - 3 * DENOMINATOR < DENOMINATOR && FitsI128(result * 10 + 3)
    ensures 3 * (result * 10 + 3) == 10 * (10 * p) - 1 && 3 * (TEN_37 - (rem * 10 - 3 * DENOMINATOR)) == 4 * (10 * p) - 1
  {
  }

  /** Every digit of this quotient but the last is a three. */
  lemma {:induction false} Threes(k: nat) returns (result: nat, rem: nat)
    requires k <= 36
    ensures 3 * result == 10 * Pow(k) - 1 && 3 * (TEN_37 - rem) == 4 * Pow(k) - 1
    ensures LongDivision(DENOMINATOR, result, rem, 0 - k, k) == Digits(NUMERATOR, DENOMINATOR, 0)
  {
    if k == 0 {
      result, rem := 3, TEN_37 - 1;
      DivisionIs(NUMERATOR, DENOMINATOR, 3, TEN_37 - 1);
    } else {
      var before, left := Threes(k - 1);
      SmallPow(k);
      ThreeMore(before, left, Pow(k - 1));
      result, rem := before * 10 + 3, left * 10 - 3 * DENOMINATOR;
      DigitIs(DENOMINATOR, before, left, 1 - k, k - 1, 3, rem);
    }
  }

  lemma {:induction false} SmallPow(k: nat)
    requires k <= 36
    ensures 10 * Pow(k) <= TEN_37
  {
    PowNineteen();
    PowSum(19, 18);
    assert Pow(19) == 10 * Pow(18) && Pow(37) == 10 * Pow(36);
    PowGrows(k, 36);
  }

  /** The 38 digits fit, the 39th has no room, and the remainder, already scaled for it, cannot be
      doubled in 128 bits. */
  lemma {:induction false} QuotientOverflows()
    ensures Div(Dec(false, NUMERATOR, 0), Dec(false, DENOMINATOR, 0)) == Overflow
  {
    var result, rem := Threes(36);
    PowNineteen();
    PowSum(19, 18);
    assert Pow(19) == 10 * Pow(18) && Pow(37) == 10 * Pow(36) && Pow(37) == TEN_37;
    var last, left: nat := 10 * result + 2, 10 * rem - 2 * DENOMINATOR;
    DigitIs(DENOMINATOR, result, rem, -36, 36, 2, left);
    assert !HasRoom(last, left, DENOMINATOR, -37);
    var q := Digits(NUMERATOR, DENOMINATOR, 0);
    assert q == LongDivision(DENOMINATOR, last, left, -37, 37);
    assert q == Quotient(last, 10 * left, -37, 37, ResultFull);
    DivAnswers(Dec(false, NUMERATOR, 0), Dec(false, DENOMINATOR, 0));
  }

  /** The largest mantissa leaves the remainder one when divided by seven, and yet is rounded up. */
  lemma {:induction false} QuotientRoundedUp()
    ensures I128_MAX == 7 * 24305883351495604533098186245126300818 + 1
    ensures Div(Dec(false, I128_MAX, 0), Dec(false, 7, 0)) == Answer(Normal(24305883351495604533098186245126300819, 0))
  {
    RoundedTheWrongWay();
    var q := Digits(I128_MAX, 7, 0);
    DivisionIs(I128_MAX, 7, 24305883351495604533098186245126300818, 1);
    assert !HasRoom(24305883351495604533098186245126300818, 1, 7, 0);
    assert q == Quotient(24305883351495604533098186245126300818, 10, 0, 0, ResultFull);
    DivIs(Dec(false, I128_MAX, 0), Dec(false, 7, 0), I128_MAX, 7, 0, false, Finish(q, 7, false));
  }
}
