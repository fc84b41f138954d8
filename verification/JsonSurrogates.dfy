/** Escaped surrogates, which the parser drops. */
module JsonSurrogates {
  import opened Digits
  import opened Options
  import opened TextAt
  import opened JsonText

  /** A code unit as an escape, its letters in upper or lower case. */
  function UnitEscape(n: nat, upper: bool): string
    requires n < 0x1_0000
  {
    "\\u" + Hex4(n, upper)
  }

  predicate IsSurrogate(n: nat) {
    0xD800 <= n < 0xE000
  }

  /** The escape of a code unit reads as its character, unless it is a surrogate: then as nothing. */
  lemma {:induction false} UnitReads(c: string, p: nat, n: nat, upper: bool)
    requires n < 0x1_0000 && At(c, p, UnitEscape(n, upper))
    ensures p + 6 <= |c| && ReadPiece(c, p) == Read(if IsSurrogate(n) then [] else [n as char], p + 6)
  {
    var t := UnitEscape(n, upper);
    AtSlice(c, p, t);
    var slice := c[p..p + 6];
    assert slice[0] == c[p] && slice[1] == c[p + 1];
    Hex4Reads(n, upper);
    assert t[2..] == Hex4(n, upper) && c[p + 2..p + 6] == slice[2..];
  }

  /** How section 7 of RFC 8259 spells a character beyond U+FFFF: a high surrogate and a low one. */
  function PairEscape(ch: char, upper: bool): string
    requires ch as int >= 0x1_0000
  {
    var n: nat := ch as int - 0x1_0000;
    UnitEscape(0xD800 + n / 0x400, upper) + UnitEscape(0xDC00 + n % 0x400, upper)
  }

  /** The parser reads such a pair as no character at all, wherever it stands in a string. */
  lemma {:induction false} PairReadsAsNothing(c: string, p: nat, ch: char, upper: bool, sofar: string)
    requires ch as int >= 0x1_0000 && At(c, p, PairEscape(ch, upper))
    ensures p + 12 <= |c| && ReadBody(c, p, sofar) == ReadBody(c, p + 12, sofar)
  {
    var n: nat := ch as int - 0x1_0000;
    var high, low := UnitEscape(0xD800 + n / 0x400, upper), UnitEscape(0xDC00 + n % 0x400, upper);
    AtParts(c, p, high, low);
    UnitReads(c, p, 0xD800 + n / 0x400, upper);
    UnitReads(c, p + 6, 0xDC00 + n % 0x400, upper);
    assert sofar + [] == sofar;
  }

  /** A string of one such character, spelled with the pair, is read as the empty string. */
  lemma {:induction false} PairIsLost(ch: char, upper: bool)
    requires ch as int >= 0x1_0000
    ensures ReadString("\"" + PairEscape(ch, upper) + "\"", 0) == Got("", 14)
  {
    var t := PairEscape(ch, upper);
    var c := "\"" + t + "\"";
    assert |t| == 12 && c[1..13] == t;
    AtSlice(c, 1, t);
    PairReadsAsNothing(c, 1, ch, upper, []);
    assert ReadPiece(c, 13) == Closed(14);
  }
}
