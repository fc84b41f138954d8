/** JSON as text: which stretches of a text spell which trees, with blanks between tokens and in all
    the spellings the parser knows. */
module JsonGrammar {
  import opened Digits
  import opened Options
  import opened TextAt
  import opened JsonText
  import opened D = JsonDocument

  // ----- blanks -----

  /** The white space of section 2 of RFC 8259. */
  const BLANKS: set<char> := {' ', '\t', '\n', '\r'}

  /** All the blanks from `p` on. */
  predicate Blanks(c: string, p: nat, q: nat) {
    p <= q <= |c| && (forall i | p <= i < q :: c[i] in BLANKS) && (q < |c| ==> c[q] !in BLANKS)
  }

  // ----- strings -----

  predicate ShortEscape(letter: char, text: string) {
    || (letter in {'"', '\\', '/'} && text == [letter])
    || (letter == 'n' && text == "\n")
    || (letter == 't' && text == "\t")
    || (letter == 'r' && text == "\r")
  }

  predicate IsScalar(n: nat) {
    n < 0xD800 || 0xE000 <= n < 0x11_0000
  }

  /** Up to four characters after the `u`: a scalar's code, perhaps after a plus sign, or nothing. */
  predicate HexEscape(h: string, text: string) {
    var digits := if h != [] && h[0] == '+' then h[1..] else h;
    if digits != [] && HexDigits(digits).Some? && IsScalar(HexDigits(digits).value)
    then text == [HexDigits(digits).value as char]
    else text == []
  }

  /** One character of a string, as itself or as an escape, and what it stands for. */
  predicate PieceAt(c: string, p: nat, q: nat, text: string) {
    p < |c| &&
    (|| (c[p] != '"' && c[p] != '\\' && text == [c[p]] && q == p + 1)
     || (c[p] == '\\' && p + 1 < |c| && ShortEscape(c[p + 1], text) && q == p + 2)
     || (c[p] == '\\' && p + 1 < |c| && c[p + 1] == 'u' && q == (if p + 6 <= |c| then p + 6 else |c|) && HexEscape(c[p + 2..q], text)))
  }

  ghost predicate PiecesAt(c: string, p: nat, q: nat, s: string)
    decreases q - p
  {
    if p >= q then p == q && s == []
    else exists m: nat, text: string :: p < m <= q && text <= s && PieceAt(c, p, m, text) && PiecesAt(c, m, q, s[|text|..])
  }

  ghost predicate StringAt(c: string, p: nat, q: nat, s: string) {
    q > 0 && Has(c, p, '"') && PiecesAt(c, p + 1, q - 1, s) && Has(c, q - 1, '"')
  }

  // ----- numbers -----

  predicate IsNumberChar(ch: char) {
    IsDigit(ch) || ch in {'.', 'e', 'E', '+', '-'}
  }

  /** A digit or a minus sign and all the number characters after it. */
  predicate NumberRun(c: string, p: nat, q: nat) {
    && p < q <= |c| && (c[p] == '-' || IsDigit(c[p]))
    && (forall i | p < i < q :: IsNumberChar(c[i])) && (q < |c| ==> !IsNumberChar(c[q]))
  }

  function Signed(n: int, minus: bool): int {
    if minus then -n else n
  }

  /** Nothing but digits after an optional minus sign. */
  predicate IntegerText(t: string, i: int) {
    && t != []
    && var digits := if t[0] == '-' then t[1..] else t;
       AllDigits(digits) && digits != [] && i == Signed(DigitsValue(digits), t[0] == '-')
  }

  predicate ExponentForm(t: string) {
    t == [] ||
    ((t[0] == 'e' || t[0] == 'E') &&
     var digits := if |t| > 1 && (t[1] == '+' || t[1] == '-') then t[2..] else t[1..];
     digits != [] && AllDigits(digits))
  }

  /** A sign, figures and an exponent. */
  predicate FloatParts(t: string, p: nat, a: string, point: bool, b: string) {
    && p <= 1 && (p == 1 ==> t != [] && (t[0] == '+' || t[0] == '-'))
    && var q := p + |a| + |b| + if point then 1 else 0;
       q <= |t| && Figures(t[p..q], a, point, b) && a + b != [] && ExponentForm(t[q..])
  }

  ghost predicate FloatForm(t: string) {
    exists p: nat, a: string, point: bool, b: string :: FloatParts(t, p, a, point, b)
  }

  ghost predicate NumberAt(c: string, p: nat, q: nat, v: Json) {
    && NumberRun(c, p, q)
    && match v
       case Int(i) => IntegerText(c[p..q], i) && I64_MIN <= i <= I64_MAX
       case Double(t) => t == c[p..q] && !(AllDigits(t) || (t[0] == '-' && AllDigits(t[1..]))) && FloatForm(t)
       case _ => false
  }

  // ----- trees -----

  predicate WordAt(c: string, p: nat, q: nat, word: string) {
    p <= q <= |c| && c[p..q] == word
  }

  ghost predicate ValueAt(c: string, p: nat, q: nat, v: Json)
    decreases v, 0
  {
    match v
    case Null => WordAt(c, p, q, "null")
    case Bool(b) => WordAt(c, p, q, if b then "true" else "false")
    case Int(_) => NumberAt(c, p, q, v)
    case Double(_) => NumberAt(c, p, q, v)
    case Str(s) => StringAt(c, p, q, s)
    case Array(items) =>
      Has(c, p, '[') &&
      (if items == [] then exists m: nat :: Blanks(c, p + 1, m) && Has(c, m, ']') && q == m + 1
       else ItemsAt(c, p + 1, q, items))
    case Object(entries) =>
      Has(c, p, '{') &&
      (if entries == [] then exists m: nat :: Blanks(c, p + 1, m) && Has(c, m, '}') && q == m + 1
       else EntriesAt(c, p + 1, q, entries))
  }

  /** A value in `[m, e]` with blanks around it, up to `b`. */
  ghost predicate ItemAt(c: string, p: nat, m: nat, e: nat, b: nat, item: Json)
    decreases item, 1
  {
    Blanks(c, p, m) && ValueAt(c, m, e, item) && Blanks(c, e, b)
  }

  ghost predicate ItemEnds(c: string, p: nat, b: nat, item: Json)
    decreases item, 2
  {
    exists m: nat, e: nat :: ItemAt(c, p, m, e, b, item)
  }

  ghost predicate ItemsAt(c: string, p: nat, q: nat, items: seq<Json>)
    decreases items, 2
  {
    && items != []
    && if |items| == 1 then q > 0 && ItemEnds(c, p, q - 1, items[0]) && Has(c, q - 1, ']')
       else exists b: nat :: ItemEnds(c, p, b, items[0]) && Has(c, b, ',') && ItemsAt(c, b + 1, q, items[1..])
  }

  /** A key in `[m, k]`, blanks and a colon at `l`. */
  ghost predicate KeyAt(c: string, p: nat, m: nat, k: nat, l: nat, key: string) {
    Blanks(c, p, m) && StringAt(c, m, k, key) && Blanks(c, k, l) && Has(c, l, ':')
  }

  ghost predicate KeyEnds(c: string, p: nat, l: nat, key: string) {
    exists m: nat, k: nat :: KeyAt(c, p, m, k, l, key)
  }

  /** A key that ends with its colon at `l`, a value in `[v, e]`, and blanks up to `b`. */
  ghost predicate EntryAt(c: string, p: nat, l: nat, v: nat, e: nat, b: nat, entry: Entry)
    decreases entry, 1
  {
    KeyEnds(c, p, l, entry.key) && Blanks(c, l + 1, v) && ValueAt(c, v, e, entry.value) && Blanks(c, e, b)
  }

  ghost predicate EntryEnds(c: string, p: nat, b: nat, entry: Entry)
    decreases entry, 2
  {
    exists l: nat, v: nat, e: nat :: EntryAt(c, p, l, v, e, b, entry)
  }

  ghost predicate EntriesAt(c: string, p: nat, q: nat, entries: seq<Entry>)
    decreases entries, 2
  {
    && entries != []
    && if |entries| == 1 then q > 0 && EntryEnds(c, p, q - 1, entries[0]) && Has(c, q - 1, '}')
       else exists b: nat :: EntryEnds(c, p, b, entries[0]) && Has(c, b, ',') && EntriesAt(c, b + 1, q, entries[1..])
  }

  /** A whole document, with blanks before it and after it. */
  ghost predicate DocumentIs(c: string, v: Json) {
    exists m: nat, e: nat :: Blanks(c, 0, m) && ValueAt(c, m, e, v) && Blanks(c, e, |c|)
  }
}
