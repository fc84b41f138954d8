/** Which texts are decimals, and which decimals they are. */
module DecimalForms {
  import opened Digits
  import opened Options
  import opened Decimal
  import opened DecimalText
  import S = TypeScan

  /** An optional sign before figures of at least one digit. */
  predicate Written(t: string, sign: string, a: string, point: bool, b: string) {
    && (sign == "" || sign == "+" || sign == "-") && a + b != []
    && sign <= t && Figures(t[|sign|..], a, point, b)
  }

  lemma {:induction false} JoinedDigits(a: string, b: string)
    requires AllDigits(a) && AllDigits(b)
    ensures AllDigits(a + b) && Extended(0, a + b) == DigitsValue(a + b) == Extended(Extended(0, a), b)
  {
    ExtendedTwo(0, a, b);
    ExtendedIsValue(a + b);
  }

  lemma {:induction false} ScanRun(s: Scan, t: string)
    requires AllDigits(t) && s.mantissa <= I128_MAX
    ensures ScanAll(s, t)
         == if Extended(s.mantissa, t) > I128_MAX then None
            else
              var exponent := if s.seenPoint then s.exponent - |t| else s.exponent;
              Some(Scan(Extended(s.mantissa, t), exponent, s.seenDigit || t != [], s.seenPoint))
  {
    if t != [] {
      ScanDigits(s, t);
    }
  }

  lemma {:induction false} FiguresScan(t: string, a: string, point: bool, b: string)
    requires Figures(t, a, point, b) && AllDigits(a + b)
    ensures ScanAll(Scan(0, 0, false, false), t)
         == if DigitsValue(a + b) > I128_MAX then None else Some(Scan(DigitsValue(a + b), -|b|, a + b != [], point))
  {
    var start, m := Scan(0, 0, false, false), Extended(0, a);
    JoinedDigits(a, b);
    ExtendedGrows(m, b);
    ScanRun(start, a);
    if point {
      ScanTwo(start, a, "." + b);
      if m <= I128_MAX {
        assert ("." + b)[1..] == b;
        ScanRun(Scan(m, 0, a != [], true), b);
      }
    } else {
      assert a + b == a && t == a;
    }
  }

  /** Whatever is scanned to its end is digits with at most one point. */
  lemma {:induction false} ScannedIsFigures(s: Scan, t: string) returns (a: string, point: bool, b: string)
    requires ScanAll(s, t).Some?
    ensures Figures(t, a, point, b) && (s.seenPoint ==> !point)
    decreases |t|
  {
    if t == [] {
      a, point, b := [], false, [];
    } else {
      var next := Next(s, t[0]).value;
      a, point, b := ScannedIsFigures(next, t[1..]);
      if IsDigit(t[0]) {
        a := [t[0]] + a;
        assert t == [t[0]] + t[1..];
      } else {
        assert t == "." + a && a == t[1..];
        a, point, b := [], true, a;
      }
    }
  }

  /** The decimal a text spells: the digits without the point, over a power of ten for those after it. */
  ghost predicate SpellsDecimal(t: string, sign: string, a: string, point: bool, b: string, d: Dec) {
    && Written(t, sign, a, point, b) && AllDigits(a + b) && DigitsValue(a + b) <= I128_MAX
    && d == Normal(Signed(DigitsValue(a + b), sign == "-"), -|b|)
  }

  lemma {:induction false} SpelledIsParsed(input: string, sign: string, a: string, point: bool, b: string, d: Dec)
    requires SpellsDecimal(S.Trim(input), sign, a, point, b, d)
    ensures Parse(input) == Some(d)
  {
    var t := S.Trim(input);
    FiguresScan(t[|sign|..], a, point, b);
    if sign == "" {
      assert t[0..] == t && (a != [] ==> t[0] == a[0]) && (a == [] ==> t[0] == '.');
    } else {
      assert t[0] == sign[0];
    }
  }

  lemma {:induction false} ParsedIsSpelled(input: string, d: Dec) returns (sign: string, a: string, point: bool, b: string)
    requires Parse(input) == Some(d)
    ensures SpellsDecimal(S.Trim(input), sign, a, point, b, d)
  {
    var t := S.Trim(input);
    sign := if t[0] == '-' then "-" else if t[0] == '+' then "+" else "";
    assert t[0..] == t;
    var rest := t[|sign|..];
    a, point, b := ScannedIsFigures(Scan(0, 0, false, false), rest);
    assert AllDigits(a + b);
    FiguresScan(rest, a, point, b);
  }

  /** A text parses to a decimal exactly when, white space around it apart, it spells that decimal. */
  lemma {:induction false} ParsesIffSpells(input: string, d: Dec)
    ensures Parse(input) == Some(d)
       <==> exists sign: string, a: string, point: bool, b: string :: SpellsDecimal(S.Trim(input), sign, a, point, b, d)
  {
    if Parse(input) == Some(d) {
      var sign, a, point, b := ParsedIsSpelled(input, d);
    }
    if exists sign: string, a: string, point: bool, b: string :: SpellsDecimal(S.Trim(input), sign, a, point, b, d) {
      var sign: string, a: string, point: bool, b: string :| SpellsDecimal(S.Trim(input), sign, a, point, b, d);
      SpelledIsParsed(input, sign, a, point, b, d);
    }
  }
}
