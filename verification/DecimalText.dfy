/** Decimals as text: printing and parsing. */
module DecimalText {
  import opened Digits
  import opened Options
  import opened Decimal
  import S = TypeScan

  // ----- printing -----

  function Zeros(n: nat): (t: string)
    ensures |t| == n && forall i | 0 <= i < n :: t[i] == '0'
  {
    seq(n, _ => '0')
  }

  function Body(n: nat, exponent: int): string {
    var digits := NatText(n);
    if exponent >= 0 then digits + Zeros(exponent)
    else
      var frac: nat := -exponent;
      if |digits| > frac then digits[..|digits| - frac] + "." + digits[|digits| - frac..]
      else "0." + Zeros(frac - |digits|) + digits
  }

  function Print(v: Dec): string {
    if v.nan then "NaN"
    else if v.mantissa == 0 then "0"
    else if v.mantissa < 0 then "-" + Body(Abs(v.mantissa), v.exponent)
    else Body(Abs(v.mantissa), v.exponent)
  }

  // ----- parsing -----

  datatype Scan = Scan(mantissa: nat, exponent: int, seenDigit: bool, seenPoint: bool)

  /** One more character, unless it is malformed or the mantissa overflows. */
  function Next(s: Scan, c: char): Option<Scan> {
    if IsDigit(c) then
      if FitsI128(s.mantissa * 10) && FitsI128(s.mantissa * 10 + DigitOf(c))
      then Some(Scan(s.mantissa * 10 + DigitOf(c), if s.seenPoint then s.exponent - 1 else s.exponent, true, s.seenPoint))
      else None
    else if c == '.' && !s.seenPoint then Some(s.(seenPoint := true))
    else None
  }

  function ScanAll(s: Scan, t: string): Option<Scan>
    decreases |t|
  {
    if t == [] then Some(s)
    else match Next(s, t[0]) case None => None case Some(next) => ScanAll(next, t[1..])
  }

  function ReadDigits(rest: string, negative: bool): Option<Dec> {
    match ScanAll(Scan(0, 0, false, false), rest)
    case None => None
    case Some(s) => if s.seenDigit then Some(Normal(Signed(s.mantissa, negative), s.exponent)) else None
  }

  function Parse(input: string): Option<Dec> {
    var trimmed := S.Trim(input);
    if trimmed == [] then None
    else if trimmed[0] == '-' then ReadDigits(trimmed[1..], true)
    else ReadDigits(if trimmed[0] == '+' then trimmed[1..] else trimmed, false)
  }

  method ParseDecimal(input: string) returns (r: Option<Dec>)
    ensures r == Parse(input)
  {
    var trimmed := S.Trim(input);
    if trimmed == [] {
      return None;
    }
    var negative := trimmed[0] == '-';
    var rest := if negative || trimmed[0] == '+' then trimmed[1..] else trimmed;
    var scan := ScanDecimal(rest);
    if scan.None? || !scan.value.seenDigit {
      return None;
    }
    var d := Normalized(Dec(false, Signed(scan.value.mantissa, negative), scan.value.exponent));
    return Some(d);
  }

  method ScanDecimal(rest: string) returns (r: Option<Scan>)
    ensures r == ScanAll(Scan(0, 0, false, false), rest)
  {
    var mantissa: nat, exponent, seenDigit, seenPoint := 0, 0, false, false;
    assert rest[0..] == rest;
    for i := 0 to |rest|
      invariant ScanAll(Scan(mantissa, exponent, seenDigit, seenPoint), rest[i..]) == ScanAll(Scan(0, 0, false, false), rest)
    {
      var ch := rest[i];
      assert rest[i..][0] == ch && rest[i..][1..] == rest[i + 1..];
      if IsDigit(ch) {
        if !FitsI128(mantissa * 10) || !FitsI128(mantissa * 10 + DigitOf(ch)) {
          return None;
        }
        mantissa := mantissa * 10 + DigitOf(ch);
        seenDigit := true;
        if seenPoint {
          exponent := exponent - 1;
        }
      } else if ch == '.' && !seenPoint {
        seenPoint := true;
      } else {
        return None;
      }
    }
    return Some(Scan(mantissa, exponent, seenDigit, seenPoint));
  }

  // ----- digits -----

  lemma {:induction false} ScanTwo(s: Scan, t: string, u: string)
    ensures ScanAll(s, t + u) == match ScanAll(s, t) case None => None case Some(next) => ScanAll(next, u)
    decreases |t|
  {
    if t == [] {
      assert t + u == u;
    } else {
      assert (t + u)[1..] == t[1..] + u;
      match Next(s, t[0])
      case None =>
      case Some(next) => ScanTwo(next, t[1..], u);
    }
  }

  /** Digits are scanned exactly when the number they lead to fits. */
  lemma {:induction false} ScanDigits(s: Scan, t: string)
    requires AllDigits(t) && t != []
    ensures ScanAll(s, t)
         == if Extended(s.mantissa, t) > I128_MAX then None
            else Some(Scan(Extended(s.mantissa, t), if s.seenPoint then s.exponent - |t| else s.exponent, true, s.seenPoint))
    decreases |t|
  {
    var m := s.mantissa * 10 + DigitOf(t[0]);
    ExtendedGrows(m, t[1..]);
    match Next(s, t[0])
    case None =>
    case Some(next) =>
      if |t| > 1 {
        ScanDigits(next, t[1..]);
      } else {
        assert t[1..] == [];
      }
  }

  lemma {:induction false} ExtendedZeros(m: nat, n: nat)
    ensures Extended(m, Zeros(n)) == m * Pow(n)
    decreases n
  {
    if n > 0 {
      assert Zeros(n)[1..] == Zeros(n - 1);
      ExtendedZeros(m * 10, n - 1);
      TimesPow(m, n);
      TenFirst(m, Pow(n - 1));
    }
  }

  lemma {:induction false} TenFirst(m: nat, p: nat)
    ensures m * 10 * p == 10 * (m * p)
  {
  }

  // ----- printing, then parsing -----

  /** The number the digits of a body spell when the point is left out. */
  function Spelled(n: nat, exponent: int): nat {
    if exponent >= 0 then n * Pow(exponent) else n
  }

  predicate BodyChar(c: char) {
    IsDigit(c) || c == '.'
  }

  lemma {:induction false} BodyIsTight(n: nat, exponent: int)
    ensures Body(n, exponent) != [] && forall i | 0 <= i < |Body(n, exponent)| :: BodyChar(Body(n, exponent)[i])
  {
  }

  lemma {:induction false} ScanWhole(n: nat, zeros: nat)
    ensures ScanAll(Scan(0, 0, false, false), NatText(n) + Zeros(zeros))
         == if n * Pow(zeros) > I128_MAX then None else Some(Scan(n * Pow(zeros), 0, true, false))
  {
    var digits := NatText(n);
    ExtendedIsValue(digits);
    NatTextReads(n);
    ExtendedTwo(0, digits, Zeros(zeros));
    ExtendedZeros(n, zeros);
    ScanDigits(Scan(0, 0, false, false), digits + Zeros(zeros));
  }

  lemma {:induction false} ScanPoint(a: string, b: string)
    requires AllDigits(a) && AllDigits(b) && a != [] && b != [] && Extended(0, a + b) <= I128_MAX
    ensures AllDigits(a + b)
    ensures ScanAll(Scan(0, 0, false, false), a + "." + b) == Some(Scan(Extended(0, a + b), -|b|, true, true))
  {
    var start := Scan(0, 0, false, false);
    var m := Extended(0, a);
    ExtendedTwo(0, a, b);
    ExtendedGrows(m, b);
    ScanDigits(start, a);
    ScanTwo(start, a, "." + b);
    assert a + "." + b == a + ("." + b) && ("." + b)[1..] == b;
    ScanDigits(Scan(m, 0, true, true), b);
  }

  lemma {:induction false} ScanLong(n: nat, frac: nat)
    requires 0 < frac < |NatText(n)| && n <= I128_MAX
    ensures ScanAll(Scan(0, 0, false, false), Body(n, 0 - frac)) == Some(Scan(n, 0 - frac, true, true))
  {
    var digits := NatText(n);
    ExtendedIsValue(digits);
    NatTextReads(n);
    var a, b := digits[..|digits| - frac], digits[|digits| - frac..];
    assert a + b == digits;
    assert AllDigits(a) && AllDigits(b);
    assert Extended(0, a + b) == n;
    ScanPoint(a, b);
  }

  lemma {:induction false} ExtendedShort(n: nat, zeros: nat)
    ensures AllDigits("0" + (Zeros(zeros) + NatText(n))) && Extended(0, "0" + (Zeros(zeros) + NatText(n))) == n
  {
    var digits := NatText(n);
    ExtendedIsValue(digits);
    NatTextReads(n);
    ExtendedZeros(0, zeros);
    ZeroTimes(Pow(zeros));
    ExtendedTwo(0, Zeros(zeros), digits);
    ExtendedTwo(0, "0", Zeros(zeros) + digits);
    assert Extended(0, "0") == Extended(0, "0"[1..]) == 0;
  }

  lemma {:induction false} ScanShort(n: nat, frac: nat)
    requires |NatText(n)| <= frac && n <= I128_MAX
    ensures ScanAll(Scan(0, 0, false, false), Body(n, 0 - frac)) == Some(Scan(n, 0 - frac, true, true))
  {
    var zeros: nat := frac - |NatText(n)|;
    ExtendedShort(n, zeros);
    ScanPoint("0", Zeros(zeros) + NatText(n));
    ShortBody(Zeros(zeros), NatText(n));
  }

  lemma {:induction false} ShortBody(zeros: string, digits: string)
    ensures "0." + zeros + digits == "0" + "." + (zeros + digits)
  {
  }

  lemma {:induction false} DigitsOfBody(n: nat, exponent: int, negative: bool)
    requires n <= I128_MAX
    ensures ReadDigits(Body(n, exponent), negative)
         == if Spelled(n, exponent) > I128_MAX then None
            else Some(Normal(Signed(Spelled(n, exponent), negative), if exponent >= 0 then 0 else exponent))
  {
    if exponent >= 0 {
      ScanWhole(n, exponent);
    } else if |NatText(n)| > 0 - exponent {
      ScanLong(n, 0 - exponent);
    } else {
      ScanShort(n, 0 - exponent);
    }
  }

  /** The normal form of the digits read is the decimal printed. */
  lemma {:induction false} SameDecimal(v: Dec)
    requires Canonical(v) && !v.nan && v.mantissa != 0
    ensures Normal(Signed(Spelled(Abs(v.mantissa), v.exponent), v.mantissa < 0), if v.exponent >= 0 then 0 else v.exponent) == v
  {
    if v.exponent >= 0 {
      NormalScaled(v.mantissa, v.exponent, v.exponent);
      SignedSpelled(v.mantissa, Pow(v.exponent));
    }
  }

  lemma {:induction false} SignedSpelled(m: int, p: nat)
    ensures Signed(Abs(m) * p, m < 0) == m * p
  {
    if m < 0 {
      assert (-m) * p == -(m * p);
    }
  }

  lemma {:induction false} PrintIsTight(v: Dec)
    ensures S.Trim(Print(v)) == Print(v) && Print(v) != []
  {
    BodyIsTight(Abs(v.mantissa), v.exponent);
    var body := Body(Abs(v.mantissa), v.exponent);
    assert BodyChar(body[0]) && BodyChar(body[|body| - 1]);
    S.TightTrims(Print(v));
  }

  /** Parsing undoes printing exactly for numbers whose digits, with the trailing zeros of a positive
      exponent, fit the mantissa; all others do not parse at all. */
  lemma {:induction false} ParseUndoesPrint(v: Dec)
    requires Canonical(v) && Abs(v.mantissa) <= I128_MAX
    ensures Parse(Print(v)) == if !v.nan && Spelled(Abs(v.mantissa), v.exponent) <= I128_MAX then Some(v) else None
  {
    PrintIsTight(v);
    var n, text := Abs(v.mantissa), Print(v);
    if v.nan {
      NotANumber();
    } else if v.mantissa == 0 {
      ScanDigits(Scan(0, 0, false, false), "0");
      assert Extended(0, "0") == Extended(0, "0"[1..]) == 0;
      ZeroTimes(Pow(0));
    } else {
      BodyIsTight(n, v.exponent);
      DigitsOfBody(n, v.exponent, v.mantissa < 0);
      SameDecimal(v);
      if v.mantissa < 0 {
        assert text[1..] == Body(n, v.exponent);
      } else {
        assert BodyChar(text[0]);
      }
    }
  }

  lemma {:induction false} ZeroTimes(p: nat)
    ensures 0 * p == 0
  {
  }

  lemma {:induction false} NotANumber()
    ensures Parse("NaN") == None
  {
    S.TightTrims("NaN");
  }
}
