/** Long division goes on for as long as it can. */
module DecimalStops {
  import opened Decimal
  import opened DecimalDivision

  /** The stop is for the reason it names: no remainder; as many digits as are asked for; a remainder
      without room for ten times it; or a next digit that the result or the exponent has no room for. */
  ghost predicate StopsFor(q: Quotient, den: nat)
    requires den > 0
  {
    match q.stop
    case Exact => Remainder(q) == 0
    case Precision => q.produced == 38
    case RemainderFull => q.produced < 38 && 10 * Remainder(q) > U128_MAX
    case ResultFull =>
      && q.produced < 38 && 0 < 10 * Remainder(q) <= U128_MAX
      && (10 * q.result + Over(10 * Remainder(q), den) > I128_MAX || q.exponent <= I32_MIN)
  }

  lemma {:induction false} LongDivisionStops(den: nat, result: nat, rem: nat, e: int, k: nat)
    requires den > 0 && k <= DIV_PRECISION
    ensures StopsFor(LongDivision(den, result, rem, e, k), den)
    decreases DIV_PRECISION - k
  {
    if rem != 0 && k < DIV_PRECISION && rem * 10 <= U128_MAX {
      if HasRoom(result, rem, den, e) {
        LongDivisionStops(den, result * 10 + Over(rem * 10, den), Left(rem * 10, den), e - 1, k + 1);
      } else {
        assert 10 * (rem * 10 / 10) == rem * 10;
      }
    }
  }

  /** No digit that fits is left out. */
  lemma {:induction false} DigitsStop(num: nat, den: nat, e: int)
    requires den > 0
    ensures StopsFor(Digits(num, den, e), den)
  {
    LongDivisionStops(den, Over(num, den), Left(num, den), e, 0);
  }
}
