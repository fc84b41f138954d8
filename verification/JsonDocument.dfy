/** Whole JSON documents: the text of a tree, the parser, and when one undoes the other. */
module JsonDocument {
  import opened Options
  import opened Digits
  import opened TextAt
  import opened JsonText

  // ----- the layout of a document -----

  /** What is written before an element, and after the last one, at this depth: nothing, or a line
      break and two blanks for each level. */
  function Lead(pretty: bool, depth: nat): string {
    if !pretty then "" else if depth == 0 then "\n" else Lead(pretty, depth - 1) + "  "
  }

  function Colon(pretty: bool): string {
    if pretty then " : " else ":"
  }

  /** How a document is laid out: the spelling of characters, and line breaks or none. */
  datatype Style = Style(escape: char -> string, pretty: bool)

  predicate Has(c: string, p: nat, ch: char) {
    p < |c| && c[p] == ch
  }

  ghost predicate Word(c: string, p: nat, q: nat, t: string) {
    q == p + |t| && At(c, p, t)
  }

  ghost predicate Quoted(c: string, p: nat, q: nat, escape: char -> string, s: string) {
    p + 2 <= q <= |c| && c[p] == '"' && Word(c, p + 1, q - 1, EscapeAll(escape, s)) && c[q - 1] == '"'
  }

  /** `c[p..q]` is the text of `v`: what a writer must emit. */
  ghost predicate Layout(c: string, p: nat, q: nat, v: Json, style: Style, depth: nat)
    decreases v, 0
  {
    match v
    case Null => Word(c, p, q, "null")
    case Bool(b) => Word(c, p, q, if b then "true" else "false")
    case Int(i) => Word(c, p, q, IntText(i))
    case Double(t) => Word(c, p, q, t)
    case Str(s) => Quoted(c, p, q, style.escape, s)
    case Array(items) =>
      p + 2 <= q <= |c| && c[p] == '[' && ItemsLayout(c, p + 1, q - 1, items, style, depth) && c[q - 1] == ']'
    case Object(entries) =>
      p + 2 <= q <= |c| && c[p] == '{' && EntriesLayout(c, p + 1, q - 1, entries, style, depth) && c[q - 1] == '}'
  }

  ghost predicate ItemsLayout(c: string, p: nat, q: nat, items: seq<Json>, style: Style, depth: nat)
    decreases items, 2
  {
    if items == [] then p == q else exists m: nat, n: nat :: ItemLayout(c, p, m, n, q, items, style, depth)
  }

  /** The first element lies in `[m, n]`, the others follow a comma. */
  ghost predicate ItemLayout(c: string, p: nat, m: nat, n: nat, q: nat, items: seq<Json>, style: Style, depth: nat)
    requires items != []
    decreases items, 1
  {
    && Word(c, p, m, Lead(style.pretty, depth + 1))
    && Layout(c, m, n, items[0], style, depth + 1)
    && if |items| == 1 then Word(c, n, q, Lead(style.pretty, depth))
       else Has(c, n, ',') && ItemsLayout(c, n + 1, q, items[1..], style, depth)
  }

  ghost predicate EntriesLayout(c: string, p: nat, q: nat, entries: seq<Entry>, style: Style, depth: nat)
    decreases entries, 2
  {
    if entries == [] then p == q
    else exists m: nat, k: nat, l: nat, n: nat :: EntryLayout(c, p, m, k, l, n, q, entries, style, depth)
  }

  /** The first key lies in `[m, k]`, the colon in `[k, l]`, the value in `[l, n]`. */
  ghost predicate EntryLayout(c: string, p: nat, m: nat, k: nat, l: nat, n: nat, q: nat, entries: seq<Entry>,
                              style: Style, depth: nat)
    requires entries != []
    decreases entries, 1
  {
    && Word(c, p, m, Lead(style.pretty, depth + 1))
    && Quoted(c, m, k, style.escape, entries[0].key)
    && Word(c, k, l, Colon(style.pretty))
    && Layout(c, l, n, entries[0].value, style, if style.pretty then depth + 1 else depth)
    && if |entries| == 1 then Word(c, n, q, Lead(style.pretty, depth))
       else Has(c, n, ',') && EntriesLayout(c, n + 1, q, entries[1..], style, depth)
  }

  // ----- parsing -----

  predicate IsSpace(ch: char) {
    ch == ' ' || ch == '\t' || ch == '\n' || ch == '\r'
  }

  function SkipWs(c: string, p: nat): (q: nat)
    requires p <= |c|
    ensures p <= q <= |c| && (q == |c| || !IsSpace(c[q]))
    decreases |c| - p
  {
    if p < |c| && IsSpace(c[p]) then SkipWs(c, p + 1) else p
  }

  predicate StartsWith(c: string, p: nat, word: string) {
    p + |word| <= |c| && c[p..p + |word|] == word
  }

  predicate IsFloatMark(ch: char) {
    ch == '.' || ch == 'e' || ch == 'E' || ch == '+' || ch == '-'
  }

  /** Where the run of number characters from `p` ends. */
  function NumberEnd(c: string, p: nat): (q: nat)
    requires p <= |c|
    ensures p <= q <= |c|
    decreases |c| - p
  {
    if p < |c| && (IsDigit(c[p]) || IsFloatMark(c[p])) then NumberEnd(c, p + 1) else p
  }

  /** Where the run of digits from `p` ends. */
  function DigitsEnd(t: string, p: nat): (q: nat)
    requires p <= |t|
    ensures p <= q <= |t|
    decreases |t| - p
  {
    if p < |t| && IsDigit(t[p]) then DigitsEnd(t, p + 1) else p
  }

  /** After an optional sign, digits to the very end, at least one. */
  predicate ExponentText(t: string, p: nat)
    requires p <= |t|
  {
    var start := if p < |t| && (t[p] == '+' || t[p] == '-') then p + 1 else p;
    start < |t| && DigitsEnd(t, start) == |t|
  }

  /** What the standard library reads as a double: a sign, digits with at most one point among or
      around them, and an exponent. */
  predicate FloatText(t: string) {
    var start := if t != [] && (t[0] == '+' || t[0] == '-') then 1 else 0;
    var point := DigitsEnd(t, start);
    var end := if point < |t| && t[point] == '.' then DigitsEnd(t, point + 1) else point;
    var digits := point - start + if end > point then end - point - 1 else 0;
    digits > 0 && (end == |t| || ((t[end] == 'e' || t[end] == 'E') && ExponentText(t, end + 1)))
  }

  function ParseNumber(c: string, p: nat): (r: Parsed<Json>)
    requires p < |c| && (c[p] == '-' || IsDigit(c[p]))
    ensures r.Got? ==> p < r.next <= |c|
  {
    var digits := if c[p] == '-' then p + 1 else p;
    var end := NumberEnd(c, digits);
    if exists i | digits <= i < end :: IsFloatMark(c[i]) then
      if FloatText(c[p..end]) then Got(Double(c[p..end]), end) else Stuck(InvalidFloat)
    else
      match IntOf(c[p..end])
      case Some(i) => Got(Int(i), end)
      case None => Stuck(InvalidNumber)
  }

  function ParseWord(c: string, p: nat, word: string, v: Json): (r: Parsed<Json>)
    requires word != []
    ensures r.Got? ==> p < r.next <= |c|
  {
    if StartsWith(c, p, word) then Got(v, p + |word|) else Stuck(InvalidLiteral)
  }

  function ParseValue(c: string, p: nat): (r: Parsed<Json>)
    requires p <= |c|
    ensures r.Got? ==> p < r.next <= |c|
    decreases |c| - p, 2
  {
    var q := SkipWs(c, p);
    if q == |c| then Stuck(UnexpectedToken)
    else if c[q] == '{' then ParseObject(c, q)
    else if c[q] == '[' then ParseArray(c, q)
    else if c[q] == '"' then
      match ReadString(c, q) case Got(s, next) => Got(Str(s), next) case Stuck(e) => Stuck(e)
    else if c[q] == 't' || c[q] == 'f' then
      if StartsWith(c, q, "true") then Got(Bool(true), q + 4) else ParseWord(c, q, "false", Bool(false))
    else if c[q] == 'n' then ParseWord(c, q, "null", Null)
    else if c[q] == '-' || IsDigit(c[q]) then ParseNumber(c, q)
    else Stuck(UnexpectedToken)
  }

  function ParseArray(c: string, p: nat): (r: Parsed<Json>)
    requires p < |c|
    ensures r.Got? ==> p < r.next <= |c|
    decreases |c| - p, 1
  {
    var q := SkipWs(c, p + 1);
    if Has(c, q, ']') then Got(Array([]), q + 1) else ParseItems(c, q, [])
  }

  function ParseItems(c: string, p: nat, sofar: seq<Json>): (r: Parsed<Json>)
    requires p <= |c|
    ensures r.Got? ==> p < r.next <= |c|
    decreases |c| - p, 3
  {
    match ParseValue(c, p)
    case Stuck(e) => Stuck(e)
    case Got(v, next) =>
      var q := SkipWs(c, next);
      if Has(c, q, ',') then ParseItems(c, q + 1, sofar + [v])
      else if Has(c, q, ']') then Got(Array(sofar + [v]), q + 1)
      else Stuck(ExpectedCommaOrClose)
  }

  function ParseObject(c: string, p: nat): (r: Parsed<Json>)
    requires p < |c|
    ensures r.Got? ==> p < r.next <= |c|
    decreases |c| - p, 1
  {
    var q := SkipWs(c, p + 1);
    if Has(c, q, '}') then Got(Object([]), q + 1) else ParseEntries(c, q, [])
  }

  /** A key and the colon after it. */
  function ParseKey(c: string, p: nat): (r: Parsed<string>)
    requires p <= |c|
    ensures r.Got? ==> p < r.next <= |c|
  {
    match ReadString(c, SkipWs(c, p))
    case Stuck(e) => Stuck(e)
    case Got(key, next) =>
      var q := SkipWs(c, next);
      if Has(c, q, ':') then Got(key, q + 1) else Stuck(ExpectedColon)
  }

  function ParseEntry(c: string, p: nat): (r: Parsed<Entry>)
    requires p <= |c|
    ensures r.Got? ==> p < r.next <= |c|
    decreases |c| - p, 3
  {
    match ParseKey(c, p)
    case Stuck(e) => Stuck(e)
    case Got(key, after) =>
      match ParseValue(c, after)
      case Stuck(e) => Stuck(e)
      case Got(v, next) => Got(Entry(key, v), next)
  }

  function ParseEntries(c: string, p: nat, sofar: seq<Entry>): (r: Parsed<Json>)
    requires p <= |c|
    ensures r.Got? ==> p < r.next <= |c|
    decreases |c| - p, 4
  {
    match ParseEntry(c, p)
    case Stuck(e) => Stuck(e)
    case Got(entry, next) =>
      var q := SkipWs(c, next);
      if Has(c, q, ',') then ParseEntries(c, q + 1, sofar + [entry])
      else if Has(c, q, '}') then Got(Object(sofar + [entry]), q + 1)
      else Stuck(ExpectedCommaOrClose)
  }

  function ParseText(c: string): Result<Json, Error> {
    match ParseValue(c, SkipWs(c, 0))
    case Stuck(e) => Err(e)
    case Got(v, next) => if SkipWs(c, next) == |c| then Ok(v) else Err(TrailingCharacters)
  }

  // ----- what reads back -----

  /** Integers fit 64 bits and there is no floating-point number. */
  predicate Plain(v: Json)
    decreases v, 0
  {
    match v
    case Int(i) => I64_MIN <= i <= I64_MAX
    case Double(_) => false
    case Array(items) => AllPlain(items)
    case Object(entries) => EntriesPlain(entries)
    case _ => true
  }

  predicate AllPlain(items: seq<Json>)
    decreases items, 0
  {
    items != [] ==> Plain(items[0]) && AllPlain(items[1..])
  }

  predicate EntriesPlain(entries: seq<Entry>)
    decreases entries, 0
  {
    entries != [] ==> Plain(entries[0].value) && EntriesPlain(entries[1..])
  }

  /** No string or key holds a character spelled by an escape the parser does not know. */
  predicate Readable(escape: char -> string, v: Json)
    decreases v, 0
  {
    match v
    case Str(s) => Speakable(escape, s)
    case Array(items) => AllReadable(escape, items)
    case Object(entries) => EntriesReadable(escape, entries)
    case _ => true
  }

  predicate AllReadable(escape: char -> string, items: seq<Json>)
    decreases items, 0
  {
    items != [] ==> Readable(escape, items[0]) && AllReadable(escape, items[1..])
  }

  predicate EntriesReadable(escape: char -> string, entries: seq<Entry>)
    decreases entries, 0
  {
    entries != [] ==>
      Speakable(escape, entries[0].key) && Readable(escape, entries[0].value) && EntriesReadable(escape, entries[1..])
  }

  lemma {:induction false} StringResult(c: string, p: nat, q: nat, escape: char -> string, s: string)
    requires Faithful(escape) && Quoted(c, p, q, escape, s)
    ensures ReadString(c, p) == if Speakable(escape, s) then Got(s, q) else Stuck(InvalidEscape)
  {
    BodyResult(c, p + 1, q - 1, escape, s, []);
    assert [] + s == s;
  }

  lemma {:induction false} SkipSpaces(c: string, p: nat, end: nat)
    requires p <= end <= |c| && (forall i | p <= i < end :: IsSpace(c[i])) && (end == |c| || !IsSpace(c[end]))
    ensures SkipWs(c, p) == end
    decreases end - p
  {
    if p < end {
      SkipSpaces(c, p + 1, end);
    }
  }

  lemma {:induction false} LeadIsSpace(pretty: bool, depth: nat)
    ensures forall i | 0 <= i < |Lead(pretty, depth)| :: IsSpace(Lead(pretty, depth)[i])
    decreases depth
  {
    if depth > 0 && pretty {
      LeadIsSpace(pretty, depth - 1);
    }
  }

  /** A number ends here: what follows cannot continue it. */
  predicate Boundary(c: string, p: nat) {
    p >= |c| || !(IsDigit(c[p]) || IsFloatMark(c[p]))
  }

  lemma {:induction false} SkipLead(c: string, p: nat, q: nat, pretty: bool, depth: nat)
    requires Word(c, p, q, Lead(pretty, depth)) && (q == |c| || !IsSpace(c[q]))
    ensures SkipWs(c, p) == q && (p < q ==> Boundary(c, p))
  {
    LeadIsSpace(pretty, depth);
    AtSlice(c, p, Lead(pretty, depth));
    var w := c[p..q];
    assert forall i | p <= i < q :: c[i] == w[i - p];
    SkipSpaces(c, p, q);
  }

  lemma {:induction false} NumberEnds(c: string, p: nat, end: nat)
    requires p <= end <= |c| && (forall i | p <= i < end :: IsDigit(c[i])) && Boundary(c, end)
    ensures NumberEnd(c, p) == end
    decreases end - p
  {
    if p < end {
      NumberEnds(c, p + 1, end);
    }
  }

  lemma {:induction false} NumberReads(c: string, p: nat, q: nat, i: int)
    requires I64_MIN <= i <= I64_MAX && Word(c, p, q, IntText(i)) && Boundary(c, q)
    ensures p < |c| && (c[p] == '-' || IsDigit(c[p])) && ParseNumber(c, p) == Got(Int(i), q)
  {
    var digits := if i < 0 then p + 1 else p;
    IntTextReads(i);
    IntTextShape(c, p, q, i);
    NumberEnds(c, digits, q);
  }

  lemma {:induction false} IntTextShape(c: string, p: nat, q: nat, i: int)
    requires Word(c, p, q, IntText(i))
    ensures p < q <= |c| && c[p..q] == IntText(i)
    ensures if i < 0 then c[p] == '-' else IsDigit(c[p])
    ensures forall k | (if i < 0 then p + 1 else p) <= k < q :: IsDigit(c[k])
  {
    var t := IntText(i);
    AtSlice(c, p, t);
    var w := c[p..q];
    assert forall k | p <= k < q :: c[k] == w[k - p];
    if i < 0 {
      assert forall k | 1 <= k < |t| :: t[k] == NatText(-i)[k - 1];
    }
  }

  lemma {:induction false} WordReads(c: string, p: nat, q: nat, word: string)
    requires Word(c, p, q, word) && word != []
    ensures StartsWith(c, p, word) && c[p] == word[0]
  {
    AtSlice(c, p, word);
  }

  lemma {:induction false} NotThisWord(c: string, p: nat, word: string)
    requires p < |c| && word != [] && c[p] != word[0]
    ensures !StartsWith(c, p, word)
  {
    assert p + |word| <= |c| ==> c[p..p + |word|][0] == c[p];
  }

  // ----- reading a layout back -----

  predicate HeadChar(ch: char) {
    !IsSpace(ch) && ch != ']' && ch != '}'
  }

  /** Parsing `v` at `p` reaches `q`, or stops at a string that cannot be read. */
  ghost predicate Parses(c: string, p: nat, q: nat, v: Json, escape: char -> string) {
    p < q <= |c| && HeadChar(c[p]) && ParseValue(c, p) == if Readable(escape, v) then Got(v, q) else Stuck(InvalidEscape)
  }

  lemma {:induction false} WordParses(c: string, p: nat, q: nat, word: string, escape: char -> string)
    requires Word(c, p, q, word) && word in {"null", "true", "false"}
    ensures Parses(c, p, q, if word == "null" then Null else Bool(word == "true"), escape)
  {
    WordReads(c, p, q, word);
    SkipSpaces(c, p, p);
    if word == "false" {
      NotThisWord(c, p, "true");
    }
  }

  lemma {:induction false} IntParses(c: string, p: nat, q: nat, i: int, escape: char -> string)
    requires Word(c, p, q, IntText(i)) && Boundary(c, q) && I64_MIN <= i <= I64_MAX
    ensures Parses(c, p, q, Int(i), escape)
  {
    NumberReads(c, p, q, i);
    IntTextShape(c, p, q, i);
    NumberIsNext(c, p);
  }

  lemma {:induction false} NumberIsNext(c: string, p: nat)
    requires p < |c| && (c[p] == '-' || IsDigit(c[p]))
    ensures HeadChar(c[p]) && ParseValue(c, p) == ParseNumber(c, p)
  {
    SkipSpaces(c, p, p);
  }

  lemma {:induction false} StrParses(c: string, p: nat, q: nat, s: string, escape: char -> string)
    requires Faithful(escape) && Quoted(c, p, q, escape, s)
    ensures Parses(c, p, q, Str(s), escape)
  {
    StringResult(c, p, q, escape, s);
    SkipSpaces(c, p, p);
  }

  /** A laid-out value parses to itself, unless a string in it cannot be read. */
  lemma {:induction false} ValueResult(c: string, p: nat, q: nat, v: Json, style: Style, depth: nat)
    requires Plain(v) && Faithful(style.escape) && Layout(c, p, q, v, style, depth) && Boundary(c, q)
    ensures Parses(c, p, q, v, style.escape)
    decreases v, 0
  {
    match v
    case Null => WordParses(c, p, q, "null", style.escape);
    case Bool(b) => WordParses(c, p, q, if b then "true" else "false", style.escape);
    case Int(i) => IntParses(c, p, q, i, style.escape);
    case Str(s) => StrParses(c, p, q, s, style.escape);
    case Array(items) =>
      ArrayResult(c, p, q, items, style, depth);
      SkipSpaces(c, p, p);
    case Object(entries) =>
      ObjectResult(c, p, q, entries, style, depth);
      SkipSpaces(c, p, p);
  }

  lemma {:induction false} ValueSkips(c: string, p: nat)
    requires p <= |c|
    ensures ParseValue(c, p) == ParseValue(c, SkipWs(c, p))
  {
    var q := SkipWs(c, p);
    SkipSpaces(c, q, q);
  }

  lemma {:induction false} ItemsSkip(c: string, p: nat, sofar: seq<Json>)
    requires p <= |c|
    ensures ParseItems(c, p, sofar) == ParseItems(c, SkipWs(c, p), sofar)
  {
    ValueSkips(c, p);
  }

  lemma {:induction false} LastItem(c: string, p: nat, next: nat, q: nat, item: Json, sofar: seq<Json>)
    requires p <= next <= |c| && ParseValue(c, p) == Got(item, next) && SkipWs(c, next) == q && Has(c, q, ']')
    ensures ParseItems(c, p, sofar) == Got(Array(sofar + [item]), q + 1)
  {
  }

  lemma {:induction false} OneMoreItem(c: string, p: nat, next: nat, item: Json, sofar: seq<Json>)
    requires p <= next <= |c| && ParseValue(c, p) == Got(item, next) && Has(c, next, ',')
    ensures ParseItems(c, p, sofar) == ParseItems(c, next + 1, sofar + [item])
  {
    SkipSpaces(c, next, next);
  }

  lemma {:induction false} ArrayResult(c: string, p: nat, q: nat, items: seq<Json>, style: Style, depth: nat)
    requires AllPlain(items) && Faithful(style.escape)
    requires p + 2 <= q <= |c| && c[p] == '[' && ItemsLayout(c, p + 1, q - 1, items, style, depth) && c[q - 1] == ']'
    ensures ParseArray(c, p) == if AllReadable(style.escape, items) then Got(Array(items), q) else Stuck(InvalidEscape)
    decreases items, 1
  {
    if items == [] {
      SkipSpaces(c, p + 1, p + 1);
    } else {
      ItemsResult(c, p + 1, q - 1, items, style, depth, []);
      assert [] + items == items;
      ItemsSkip(c, p + 1, []);
    }
  }

  lemma {:induction false} ItemsResult(c: string, p: nat, q: nat, items: seq<Json>, style: Style, depth: nat, sofar: seq<Json>)
    requires items != [] && AllPlain(items) && Faithful(style.escape)
    requires ItemsLayout(c, p, q, items, style, depth) && Has(c, q, ']')
    ensures p <= |c| && SkipWs(c, p) < |c| && c[SkipWs(c, p)] != ']'
    ensures ParseItems(c, p, sofar)
         == if AllReadable(style.escape, items) then Got(Array(sofar + items), q + 1) else Stuck(InvalidEscape)
    decreases items, 0
  {
    var m: nat, n: nat :| ItemLayout(c, p, m, n, q, items, style, depth);
    if |items| == 1 {
      SkipLead(c, n, q, style.pretty, depth);
    }
    ValueResult(c, m, n, items[0], style, depth + 1);
    SkipLead(c, p, m, style.pretty, depth + 1);
    ValueSkips(c, p);
    if Readable(style.escape, items[0]) {
      if |items| == 1 {
        LastItem(c, p, n, q, items[0], sofar);
        assert items == [items[0]];
      } else {
        OneMoreItem(c, p, n, items[0], sofar);
        ItemsResult(c, n + 1, q, items[1..], style, depth, sofar + [items[0]]);
        Shift(sofar, items);
      }
    }
  }

  lemma {:induction false} EntriesSkip(c: string, p: nat, sofar: seq<Entry>)
    requires p <= |c|
    ensures ParseEntries(c, p, sofar) == ParseEntries(c, SkipWs(c, p), sofar)
  {
    var start := SkipWs(c, p);
    SkipSpaces(c, start, start);
    assert ParseKey(c, p) == ParseKey(c, start);
    SameEntry(c, p, start);
    EntriesAfter(c, p, sofar, ParseEntry(c, start));
    EntriesAfter(c, start, sofar, ParseEntry(c, start));
  }

  lemma {:induction false} SameEntry(c: string, p: nat, q: nat)
    requires p <= |c| && q <= |c| && ParseKey(c, p) == ParseKey(c, q)
    ensures ParseEntry(c, p) == ParseEntry(c, q)
  {
  }

  lemma {:induction false} EntriesAfter(c: string, p: nat, sofar: seq<Entry>, read: Parsed<Entry>)
    requires p <= |c| && ParseEntry(c, p) == read
    ensures match read
            case Stuck(e) => ParseEntries(c, p, sofar) == Stuck(e)
            case Got(entry, next) =>
              p < next <= |c| &&
              var q := SkipWs(c, next);
              ParseEntries(c, p, sofar) == if Has(c, q, ',') then ParseEntries(c, q + 1, sofar + [entry])
                                           else if Has(c, q, '}') then Got(Object(sofar + [entry]), q + 1)
                                           else Stuck(ExpectedCommaOrClose)
  {
  }

  lemma {:induction false} LastEntry(c: string, p: nat, next: nat, q: nat, entry: Entry, sofar: seq<Entry>)
    requires p <= next <= |c| && ParseEntry(c, p) == Got(entry, next) && SkipWs(c, next) == q && Has(c, q, '}')
    ensures ParseEntries(c, p, sofar) == Got(Object(sofar + [entry]), q + 1)
  {
  }

  lemma {:induction false} NextEntry(c: string, p: nat, next: nat, q: nat, entry: Entry, sofar: seq<Entry>)
    requires p <= next <= |c| && ParseEntry(c, p) == Got(entry, next) && SkipWs(c, next) == q && Has(c, q, ',')
    ensures ParseEntries(c, p, sofar) == ParseEntries(c, q + 1, sofar + [entry])
  {
  }

  lemma {:induction false} ObjectResult(c: string, p: nat, q: nat, entries: seq<Entry>, style: Style, depth: nat)
    requires EntriesPlain(entries) && Faithful(style.escape)
    requires p + 2 <= q <= |c| && c[p] == '{' && EntriesLayout(c, p + 1, q - 1, entries, style, depth) && c[q - 1] == '}'
    ensures ParseObject(c, p) == if EntriesReadable(style.escape, entries) then Got(Object(entries), q) else Stuck(InvalidEscape)
    decreases entries, 1
  {
    if entries == [] {
      SkipSpaces(c, p + 1, p + 1);
    } else {
      EntriesResult(c, p + 1, q - 1, entries, style, depth, []);
      assert [] + entries == entries;
      EntriesSkip(c, p + 1, []);
    }
  }

  /** A key and its colon are read; only the blank after a wide colon is left. */
  lemma {:induction false} KeyResult(c: string, p: nat, m: nat, k: nat, l: nat, style: Style, depth: nat, key: string)
    requires Faithful(style.escape) && Word(c, p, m, Lead(style.pretty, depth)) && Quoted(c, m, k, style.escape, key)
    requires Word(c, k, l, Colon(style.pretty)) && l < |c| && HeadChar(c[l])
    ensures p <= |c| && SkipWs(c, p) == m
    ensures if Speakable(style.escape, key)
            then ParseKey(c, p).Got? && ParseKey(c, p).value == key && SkipWs(c, ParseKey(c, p).next) == l
            else ParseKey(c, p) == Stuck(InvalidEscape)
  {
    SkipLead(c, p, m, style.pretty, depth);
    StringResult(c, m, k, style.escape, key);
    ColonReads(c, k, l, style.pretty);
    KeyReads(c, p, m, k, l, if Speakable(style.escape, key) then Got(key, k) else Stuck(InvalidEscape));
  }

  lemma {:induction false} KeyReads(c: string, p: nat, m: nat, k: nat, l: nat, read: Parsed<string>)
    requires p <= |c| && SkipWs(c, p) == m && ReadString(c, m) == read && (read.Got? ==> read.next == k)
    requires k <= |c| && Has(c, SkipWs(c, k), ':') && SkipWs(c, SkipWs(c, k) + 1) == l
    ensures match read
            case Got(key, _) => ParseKey(c, p).Got? && ParseKey(c, p).value == key && SkipWs(c, ParseKey(c, p).next) == l
            case Stuck(e) => ParseKey(c, p) == Stuck(e)
  {
  }

  lemma {:induction false} ColonReads(c: string, k: nat, l: nat, pretty: bool)
    requires Word(c, k, l, Colon(pretty)) && l < |c| && HeadChar(c[l])
    ensures var q := SkipWs(c, k); Has(c, q, ':') && SkipWs(c, q + 1) == l
  {
    AtSlice(c, k, Colon(pretty));
    var w := c[k..l];
    if pretty {
      assert w[0] == c[k] && w[1] == c[k + 1] && w[2] == c[k + 2];
      SkipSpaces(c, k, k + 1);
      SkipSpaces(c, k + 2, l);
    } else {
      assert w[0] == c[k];
      SkipSpaces(c, k, k);
      SkipSpaces(c, l, l);
    }
  }

  lemma {:induction false} EntriesResult(c: string, p: nat, q: nat, entries: seq<Entry>, style: Style, depth: nat,
                                         sofar: seq<Entry>)
    requires entries != [] && EntriesPlain(entries) && Faithful(style.escape)
    requires EntriesLayout(c, p, q, entries, style, depth) && Has(c, q, '}')
    ensures p <= |c| && SkipWs(c, p) < |c| && c[SkipWs(c, p)] != '}'
    ensures ParseEntries(c, p, sofar)
         == if EntriesReadable(style.escape, entries) then Got(Object(sofar + entries), q + 1) else Stuck(InvalidEscape)
    decreases entries, 0, 1
  {
    var n := FirstEntry(c, p, q, entries, style, depth);
    if ParseEntry(c, p).Got? {
      if |entries| == 1 {
        LastEntry(c, p, n, q, entries[0], sofar);
        assert entries == [entries[0]];
      } else {
        SkipSpaces(c, n, n);
        NextEntry(c, p, n, n, entries[0], sofar);
        EntriesResult(c, n + 1, q, entries[1..], style, depth, sofar + [entries[0]]);
        Shift(sofar, entries);
      }
    }
  }

  lemma {:induction false} FirstEntry(c: string, p: nat, q: nat, entries: seq<Entry>, style: Style, depth: nat)
    returns (n: nat)
    requires entries != [] && EntriesPlain(entries) && Faithful(style.escape)
    requires EntriesLayout(c, p, q, entries, style, depth) && Has(c, q, '}')
    ensures p <= |c| && SkipWs(c, p) < |c| && c[SkipWs(c, p)] != '}' && p <= n <= |c|
    ensures ParseEntry(c, p)
         == if Speakable(style.escape, entries[0].key) && Readable(style.escape, entries[0].value) then Got(entries[0], n)
            else Stuck(InvalidEscape)
    ensures if |entries| == 1 then SkipWs(c, n) == q
            else Has(c, n, ',') && EntriesLayout(c, n + 1, q, entries[1..], style, depth)
    decreases entries, 0, 0
  {
    var m: nat, k: nat, l: nat;
    m, k, l, n :| EntryLayout(c, p, m, k, l, n, q, entries, style, depth);
    if |entries| == 1 {
      SkipLead(c, n, q, style.pretty, depth);
    }
    ValueResult(c, l, n, entries[0].value, style, if style.pretty then depth + 1 else depth);
    EntryResult(c, p, m, k, l, n, style, depth + 1, entries[0]);
  }

  lemma {:induction false} EntryResult(c: string, p: nat, m: nat, k: nat, l: nat, n: nat, style: Style, depth: nat, entry: Entry)
    requires Faithful(style.escape) && Word(c, p, m, Lead(style.pretty, depth)) && Quoted(c, m, k, style.escape, entry.key)
    requires Word(c, k, l, Colon(style.pretty)) && Parses(c, l, n, entry.value, style.escape)
    ensures p <= |c| && SkipWs(c, p) == m
    ensures ParseEntry(c, p) == if Speakable(style.escape, entry.key) && Readable(style.escape, entry.value) then Got(entry, n)
                                else Stuck(InvalidEscape)
  {
    KeyResult(c, p, m, k, l, style, depth, entry.key);
    if ParseKey(c, p).Got? {
      ValueSkips(c, ParseKey(c, p).next);
    }
  }

  /** A document laid out in any style parses to its tree exactly when all its strings can be read. */
  lemma {:induction false} LayoutParses(c: string, v: Json, style: Style)
    requires Plain(v) && Faithful(style.escape) && Layout(c, 0, |c|, v, style, 0)
    ensures ParseText(c) == if Readable(style.escape, v) then Ok(v) else Err(InvalidEscape)
  {
    ValueResult(c, 0, |c|, v, style, 0);
    SkipSpaces(c, 0, 0);
    SkipSpaces(c, |c|, |c|);
  }
}
