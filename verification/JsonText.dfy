/** JSON trees and their text: what the writer emits and what the parser reads. */
module JsonText {
  import opened Digits
  import opened Options
  import opened TextAt

  datatype Entry = Entry(key: string, value: Json)

  /** A floating-point literal is kept as its text; its numeric value is not modelled. */
  datatype Json =
    | Null
    | Bool(b: bool)
    | Int(i: int)
    | Double(text: string)
    | Str(s: string)
    | Array(items: seq<Json>)
    | Object(entries: seq<Entry>)
  {
    /** The value of the first entry with this key. */
    function Get(key: string): Option<Json> {
      if Object? then Find(entries, key) else None
    }
  }

  function Find(entries: seq<Entry>, key: string): Option<Json> {
    if entries == [] then None
    else if entries[0].key == key then Some(entries[0].value)
    else Find(entries[1..], key)
  }

  datatype Error =
    | UnexpectedToken
    | ExpectedString
    | ExpectedColon
    | ExpectedCommaOrClose
    | InvalidEscape
    | UnterminatedString
    | InvalidLiteral
    | InvalidNumber
    | InvalidFloat
    | TrailingCharacters

  // ----- numbers -----

  const I64_MIN: int := -0x8000_0000_0000_0000
  const I64_MAX: int := 0x7FFF_FFFF_FFFF_FFFF

  function IntText(i: int): string {
    if i < 0 then "-" + NatText(-i) else NatText(i)
  }

  /** Reading an optional minus sign and decimal digits as a 64-bit integer. */
  function IntOf(t: string): Option<int> {
    var negative := t != [] && t[0] == '-';
    var digits := if negative then t[1..] else t;
    if digits == [] || !AllDigits(digits) then None
    else
      var v: int := DigitsValue(digits);
      var n := if negative then -v else v;
      if I64_MIN <= n <= I64_MAX then Some(n) else None
  }

  lemma {:induction false} IntTextReads(i: int)
    requires I64_MIN <= i <= I64_MAX
    ensures IntOf(IntText(i)) == Some(i)
  {
    NatTextReads(if i < 0 then -i else i);
    if i < 0 {
      assert IntText(i)[1..] == NatText(-i);
    }
  }

  // ----- strings -----

  function HexDigit(d: nat, upper: bool): char
    requires d < 16
  {
    if d < 10 then DigitChar(d) else ((if upper then 'A' as int else 'a' as int) + d - 10) as char
  }

  /** Four hexadecimal digits, in upper or lower case, of a number below 0x10000. */
  function Hex4(n: nat, upper: bool): string
    requires n < 0x1_0000
  {
    [HexDigit(n / 0x1000, upper), HexDigit(n / 0x100 % 0x10, upper), HexDigit(n / 0x10 % 0x10, upper), HexDigit(n % 0x10, upper)]
  }

  function HexValue(c: char): Option<nat> {
    if IsDigit(c) then Some(DigitOf(c))
    else if 'a' <= c <= 'f' then Some(c as int - 'a' as int + 10)
    else if 'A' <= c <= 'F' then Some(c as int - 'A' as int + 10)
    else None
  }

  function HexDigits(t: string): Option<nat> {
    if t == [] then Some(0)
    else
      match (HexDigits(t[..|t| - 1]), HexValue(t[|t| - 1]))
      case (Some(high), Some(low)) => Some(high * 16 + low)
      case _ => None
  }

  /** Radix-16 parsing as the standard library does it: a leading plus sign is allowed, and at
      least one digit is needed. */
  function FromHex(t: string): Option<nat> {
    var digits := if t != [] && t[0] == '+' then t[1..] else t;
    if digits == [] then None else HexDigits(digits)
  }

  /** The Unicode scalar with this code, if there is one. */
  function CharOf(n: nat): Option<char> {
    if n < 0xD800 || 0xE000 <= n < 0x11_0000 then Some(n as char) else None
  }

  lemma {:induction false} HexStep(t: string, c: char, high: nat, low: nat)
    requires HexDigits(t) == Some(high) && HexValue(c) == Some(low)
    ensures HexDigits(t + [c]) == Some(high * 16 + low)
  {
    assert (t + [c])[..|t|] == t;
  }

  lemma {:induction false} HexDigitReads(d: nat, upper: bool)
    requires d < 16
    ensures HexValue(HexDigit(d, upper)) == Some(d) && HexDigit(d, upper) != '+'
  {
  }

  lemma {:induction false} Hex4Reads(n: nat, upper: bool)
    requires n < 0x1_0000
    ensures FromHex(Hex4(n, upper)) == Some(n)
  {
    var t := Hex4(n, upper);
    var a, b, c, d := n / 0x1000, n / 0x100 % 0x10, n / 0x10 % 0x10, n % 0x10;
    HexDigitReads(a, upper);
    HexDigitReads(b, upper);
    HexDigitReads(c, upper);
    HexDigitReads(d, upper);
    HexStep([], t[0], 0, a);
    HexStep([] + [t[0]], t[1], a, b);
    HexStep([] + [t[0]] + [t[1]], t[2], a * 16 + b, c);
    HexStep([] + [t[0]] + [t[1]] + [t[2]], t[3], (a * 16 + b) * 16 + c, d);
    assert t == [] + [t[0]] + [t[1]] + [t[2]] + [t[3]];
    HexSplit(n);
  }

  lemma {:induction false} HexSplit(n: nat)
    ensures ((n / 0x1000 * 16 + n / 0x100 % 0x10) * 16 + n / 0x10 % 0x10) * 16 + n % 0x10 == n
  {
    assert n / 0x10 / 0x10 == n / 0x100 && n / 0x100 / 0x10 == n / 0x1000;
  }

  /** How the JSON writer spells one character of a string. */
  function JsonEscape(c: char): string {
    if c == '"' then "\\\""
    else if c == '\\' then "\\\\"
    else if c == '\n' then "\\n"
    else if c == '\t' then "\\t"
    else if c == '\r' then "\\r"
    else if c as int == 0x08 then "\\b"
    else if c as int == 0x0C then "\\f"
    else if c as int < 0x20 then "\\u" + Hex4(c as int, true)
    else [c]
  }

  function EscapeAll(escape: char -> string, s: string): string {
    if s == [] then [] else escape(s[0]) + EscapeAll(escape, s[1..])
  }

  /** One step of reading a string body at `p`: the character it denotes, if any, and where the next
      one begins. */
  datatype Piece = Closed(next: nat) | Read(text: string, next: nat) | Bad(error: Error)

  function ReadPiece(c: string, p: nat): (r: Piece)
    ensures r.Closed? || r.Read? ==> p < r.next <= |c|
  {
    if p >= |c| then Bad(UnterminatedString)
    else if c[p] == '"' then Closed(p + 1)
    else if c[p] != '\\' then Read([c[p]], p + 1)
    else if p + 1 >= |c| then Bad(InvalidEscape)
    else
      match c[p + 1]
      case '"' => Read("\"", p + 2)
      case '\\' => Read("\\", p + 2)
      case '/' => Read("/", p + 2)
      case 'n' => Read("\n", p + 2)
      case 't' => Read("\t", p + 2)
      case 'r' => Read("\r", p + 2)
      case 'u' =>
        var end := if p + 6 <= |c| then p + 6 else |c|;
        var scalar := match FromHex(c[p + 2..end]) case Some(n) => CharOf(n) case None => None;
        Read(if scalar.Some? then [scalar.value] else [], end)
      case _ => Bad(InvalidEscape)
  }

  datatype Parsed<T> = Got(value: T, next: nat) | Stuck(error: Error)

  /** The rest of a string literal, from `p` to its closing quote. */
  function ReadBody(c: string, p: nat, sofar: string): (r: Parsed<string>)
    requires p <= |c|
    ensures r.Got? ==> p < r.next <= |c|
    decreases |c| - p
  {
    match ReadPiece(c, p)
    case Closed(next) => Got(sofar, next)
    case Read(text, next) => ReadBody(c, next, sofar + text)
    case Bad(e) => Stuck(e)
  }

  function ReadString(c: string, p: nat): (r: Parsed<string>)
    requires p <= |c|
    ensures r.Got? ==> p < r.next <= |c|
  {
    if p < |c| && c[p] == '"' then ReadBody(c, p + 1, []) else Stuck(ExpectedString)
  }

  /** `t` is a spelling of the character `ch` that the parser reads back. */
  ghost predicate Spells(t: string, ch: char) {
    || (t == [ch] && ch != '"' && ch != '\\')
    || t == (match ch
             case '"' => "\\\""
             case '\\' => "\\\\"
             case '\n' => "\\n"
             case '\t' => "\\t"
             case '\r' => "\\r"
             case _ => [])
    || (ch as int < 0xD800 && (t == "\\u" + Hex4(ch as int, true) || t == "\\u" + Hex4(ch as int, false)))
  }

  lemma {:induction false} PieceReads(c: string, p: nat, t: string, ch: char)
    requires At(c, p, t) && Spells(t, ch) && t != []
    ensures p + |t| <= |c| && ReadPiece(c, p) == Read([ch], p + |t|)
  {
    AtSlice(c, p, t);
    var slice := c[p..p + |t|];
    assert forall i | 0 <= i < |t| :: slice[i] == c[p + i];
    if |t| == 6 {
      var upper := t == "\\u" + Hex4(ch as int, true);
      Hex4Reads(ch as int, upper);
      assert t[2..] == Hex4(ch as int, upper);
      assert c[p + 2..p + 6] == slice[2..];
    }
  }

  lemma {:induction false} BodyStep(c: string, p: nat, t: string, ch: char, sofar: string)
    requires At(c, p, t) && Spells(t, ch) && t != []
    ensures p + |t| <= |c| && ReadBody(c, p, sofar) == ReadBody(c, p + |t|, sofar + [ch])
  {
    PieceReads(c, p, t, ch);
  }

  /** The short escapes the parser does not know. */
  predicate Mute(t: string) {
    t == "\\b" || t == "\\f"
  }

  /** Every character is spelled so that it reads back, or by one of those short escapes. */
  ghost predicate Faithful(escape: char -> string) {
    forall ch: char :: SpelledFaithfully(escape, ch)
  }

  ghost predicate SpelledFaithfully(escape: char -> string, ch: char) {
    Mute(escape(ch)) || (escape(ch) != [] && Spells(escape(ch), ch))
  }

  predicate Speakable(escape: char -> string, s: string) {
    s != [] ==> !Mute(escape(s[0])) && Speakable(escape, s[1..])
  }

  /** A string body reads back as the string, unless it holds an unknown escape. */
  lemma {:induction false} BodyResult(c: string, p: nat, end: nat, escape: char -> string, s: string, sofar: string)
    requires Faithful(escape) && At(c, p, EscapeAll(escape, s))
    requires end == p + |EscapeAll(escape, s)| < |c| && c[end] == '"'
    ensures ReadBody(c, p, sofar) == if Speakable(escape, s) then Got(sofar + s, end + 1) else Stuck(InvalidEscape)
    decreases |s|
  {
    if s == [] {
      assert sofar + s == sofar;
    } else {
      var t, rest := escape(s[0]), EscapeAll(escape, s[1..]);
      AtParts(c, p, t, rest);
      assert SpelledFaithfully(escape, s[0]);
      if Mute(t) {
        MuteStops(c, p, t, sofar);
      } else {
        BodyStep(c, p, t, s[0], sofar);
        BodyResult(c, p + |t|, end, escape, s[1..], sofar + [s[0]]);
        Shift(sofar, s);
      }
    }
  }

  lemma {:induction false} MuteStops(c: string, p: nat, t: string, sofar: string)
    requires At(c, p, t) && Mute(t)
    ensures ReadBody(c, p, sofar) == Stuck(InvalidEscape)
  {
    assert c[p] == t[0] && At(c, p + 1, t[1..]) && c[p + 1] == t[1];
  }

  lemma {:induction false} JsonEscapeIsFaithful()
    ensures Faithful(JsonEscape)
    ensures forall ch: char :: Mute(JsonEscape(ch)) <==> ch as int == 0x08 || ch as int == 0x0C
  {
  }
}
