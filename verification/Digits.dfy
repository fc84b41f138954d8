/** Decimal digits and the text of natural numbers. */
module Digits {
  predicate IsDigit(c: char) {
    '0' <= c <= '9'
  }

  function DigitChar(d: nat): (c: char)
    requires d < 10
    ensures IsDigit(c) && DigitOf(c) == d
  {
    ('0' as int + d) as char
  }

  function NatText(n: nat): (t: string)
    ensures t != [] && forall i | 0 <= i < |t| :: IsDigit(t[i])
  {
    if n < 10 then [DigitChar(n)] else NatText(n / 10) + [DigitChar(n % 10)]
  }

  function DigitOf(c: char): nat
    requires IsDigit(c)
  {
    c as int - '0' as int
  }

  function DigitsValue(t: string): nat
    requires forall i | 0 <= i < |t| :: IsDigit(t[i])
  {
    if t == [] then 0
    else DigitsValue(t[..|t| - 1]) * 10 + DigitOf(t[|t| - 1])
  }

  lemma {:induction false} NatTextReads(n: nat)
    ensures DigitsValue(NatText(n)) == n
    decreases n
  {
    if n >= 10 {
      NatTextReads(n / 10);
      var t := NatText(n);
      assert t[..|t| - 1] == NatText(n / 10);
    } else {
      assert [DigitChar(n)][..0] == [];
    }
  }

  predicate AllDigits(t: string) {
    forall i | 0 <= i < |t| :: IsDigit(t[i])
  }

  /** What a run of digits makes of the mantissa so far. */
  function Extended(m: nat, t: string): nat
    requires AllDigits(t)
    decreases |t|
  {
    if t == [] then m else Extended(m * 10 + DigitOf(t[0]), t[1..])
  }

  lemma {:induction false} ExtendedGrows(m: nat, t: string)
    requires AllDigits(t)
    ensures Extended(m, t) >= m
    decreases |t|
  {
    if t != [] {
      ExtendedGrows(m * 10 + DigitOf(t[0]), t[1..]);
    }
  }

  lemma {:induction false} ExtendedTwo(m: nat, t: string, u: string)
    requires AllDigits(t) && AllDigits(u)
    ensures AllDigits(t + u) && Extended(m, t + u) == Extended(Extended(m, t), u)
    decreases |t|
  {
    if t == [] {
      assert t + u == u;
    } else {
      assert (t + u)[1..] == t[1..] + u;
      ExtendedTwo(m * 10 + DigitOf(t[0]), t[1..], u);
    }
  }

  lemma {:induction false} ExtendedIsValue(t: string)
    requires AllDigits(t)
    ensures Extended(0, t) == DigitsValue(t)
    decreases |t|
  {
    if t != [] {
      var front, last := t[..|t| - 1], [t[|t| - 1]];
      ExtendedIsValue(front);
      ExtendedTwo(0, front, last);
      assert t == front + last && last[1..] == [];
      assert Extended(DigitsValue(front), last) == Extended(DigitsValue(front) * 10 + DigitOf(last[0]), last[1..]);
    }
  }

  /** Digits, and after a point, if there is one, more digits. */
  predicate Figures(t: string, a: string, point: bool, b: string) {
    && AllDigits(a) && AllDigits(b) && (!point ==> b == [])
    && t == a + if point then "." + b else ""
  }
}
