/** The text of a decimal, digit by digit. */
module DecimalPrinting {
  import opened Digits
  import opened Decimal
  import opened DecimalText

  /** The text of a number has no leading zero. */
  lemma {:induction false} NatTextLeads(n: nat)
    ensures NatText(n)[0] == '0' <==> n == 0
    ensures |NatText(n)| == 1 <==> n < 10
    decreases n
  {
    if n >= 10 {
      NatTextLeads(n / 10);
      assert NatText(n)[0] == NatText(n / 10)[0];
    }
  }

  lemma {:induction false} WholeDigits(n: nat, zeros: nat)
    ensures AllDigits(NatText(n) + Zeros(zeros)) && DigitsValue(NatText(n) + Zeros(zeros)) == n * Pow(zeros)
  {
    var digits := NatText(n);
    ExtendedIsValue(digits);
    NatTextReads(n);
    ExtendedTwo(0, digits, Zeros(zeros));
    ExtendedZeros(n, zeros);
    ExtendedIsValue(digits + Zeros(zeros));
  }

  /** The digits before the point have no leading zero but a lone one, there are as many after it as a
      negative exponent asks for and no point without them, and together they spell the number. */
  lemma {:induction false} PrintsAs(v: Dec) returns (a: string, b: string)
    requires !v.nan && v.mantissa != 0
    ensures a != [] && (|a| > 1 ==> a[0] != '0') && |b| == if v.exponent < 0 then -v.exponent else 0
    ensures AllDigits(a + b) && DigitsValue(a + b) == Spelled(Abs(v.mantissa), v.exponent)
    ensures Print(v) == (if v.mantissa < 0 then "-" else "") + a + if b == [] then "" else "." + b
  {
    a, b := BodyParts(Abs(v.mantissa), v.exponent);
    var sign := if v.mantissa < 0 then "-" else "";
    assert sign + (a + if b == [] then "" else "." + b) == sign + a + if b == [] then "" else "." + b;
    assert v.mantissa > 0 ==> sign + Body(Abs(v.mantissa), v.exponent) == Body(Abs(v.mantissa), v.exponent);
  }

  lemma {:induction false} BodyParts(n: nat, exponent: int) returns (a: string, b: string)
    requires n > 0
    ensures a != [] && (|a| > 1 ==> a[0] != '0') && |b| == if exponent < 0 then -exponent else 0
    ensures AllDigits(a + b) && DigitsValue(a + b) == Spelled(n, exponent)
    ensures Body(n, exponent) == a + if b == [] then "" else "." + b
  {
    NatTextLeads(n);
    if exponent >= 0 {
      a, b := NatText(n) + Zeros(exponent), [];
      WholeDigits(n, exponent);
      assert a + b == a && a + "" == a;
    } else if |NatText(n)| > -exponent {
      a, b := LongParts(n, -exponent);
    } else {
      a, b := ShortParts(n, -exponent);
    }
  }

  lemma {:induction false} LongParts(n: nat, frac: nat) returns (a: string, b: string)
    requires 0 < frac < |NatText(n)|
    ensures a + b == NatText(n) && |b| == frac && AllDigits(a + b) && DigitsValue(a + b) == n
    ensures Body(n, 0 - frac) == a + ("." + b)
  {
    var digits := NatText(n);
    NatTextReads(n);
    a, b := digits[..|digits| - frac], digits[|digits| - frac..];
    assert a + b == digits && a + "." + b == a + ("." + b);
  }

  lemma {:induction false} ShortParts(n: nat, frac: nat) returns (a: string, b: string)
    requires |NatText(n)| <= frac
    ensures a == "0" && |b| == frac && AllDigits(a + b) && DigitsValue(a + b) == n
    ensures Body(n, 0 - frac) == a + ("." + b)
  {
    var zeros: nat := frac - |NatText(n)|;
    a, b := "0", Zeros(zeros) + NatText(n);
    ExtendedShort(n, zeros);
    ExtendedIsValue(a + b);
    assert Body(n, 0 - frac) == "0." + Zeros(zeros) + NatText(n);
    ShortBody(Zeros(zeros), NatText(n));
  }

  /** Zero alone prints as `0`, and what is not a number as `NaN`. */
  lemma {:induction false} ZeroPrints(v: Dec)
    ensures Print(v) == "0" <==> !v.nan && v.mantissa == 0
    ensures Print(v) == "NaN" <==> v.nan
  {
    if !v.nan && v.mantissa != 0 {
      var a, b := PrintsAs(v);
      Positive(Abs(v.mantissa), v.exponent);
      NotZero(a, b);
      assert v.mantissa > 0 ==> Print(v) == a + if b == [] then "" else "." + b;
      assert v.mantissa < 0 ==> Print(v)[0] == '-';
    }
  }

  lemma {:induction false} NotZero(a: string, b: string)
    requires AllDigits(a + b) && DigitsValue(a + b) > 0 && a != []
    ensures var text := a + if b == [] then "" else "." + b; text != "0" && text[0] != 'N' && text[0] != '-'
  {
    assert a[0] == (a + b)[0];
    assert "0"[..0] == [] && DigitsValue("0") == 0;
    if b == [] {
      assert a + b == a && a + "" == a;
    }
  }

  lemma {:induction false} Positive(n: nat, exponent: int)
    requires n > 0
    ensures Spelled(n, exponent) > 0
  {
    if exponent >= 0 {
      PositiveProduct(n, Pow(exponent));
    }
  }

  lemma {:induction false} PositiveProduct(n: nat, p: nat)
    requires n > 0 && p > 0
    ensures n * p > 0
  {
  }
}
