/** The pretty text of a tree: line breaks before each element and after the last, two blanks a level. */
module JsonPretty {
  import opened TextAt
  import opened JsonText
  import opened JsonDocument

  /** A line break and the indentation of the line after it. */
  function Line(depth: nat): string {
    "\n" + seq(2 * depth, _ => ' ')
  }

  function Text(v: Json, escape: char -> string, depth: nat): string
    decreases v, 0
  {
    match v
    case Null => "null"
    case Bool(b) => if b then "true" else "false"
    case Int(i) => IntText(i)
    case Double(t) => t
    case Str(s) => "\"" + (EscapeAll(escape, s) + "\"")
    case Array(items) => "[" + (ItemsText(items, escape, depth) + "]")
    case Object(entries) => "{" + (EntriesText(entries, escape, depth) + "}")
  }

  function ItemsText(items: seq<Json>, escape: char -> string, depth: nat): string
    decreases items, 0
  {
    if items == [] then ""
    else Line(depth + 1) + (Text(items[0], escape, depth + 1) + After(depth, items[1..] == [], ItemsText(items[1..], escape, depth)))
  }

  function EntriesText(entries: seq<Entry>, escape: char -> string, depth: nat): string
    decreases entries, 0
  {
    if entries == [] then ""
    else
      var key := "\"" + (EscapeAll(escape, entries[0].key) + "\"");
      var value := Text(entries[0].value, escape, depth + 1);
      Line(depth + 1) + (key + (" : " + (value + After(depth, entries[1..] == [], EntriesText(entries[1..], escape, depth)))))
  }

  /** After an element: the last line, or a comma and the elements that follow. */
  function After(depth: nat, last: bool, rest: string): string {
    if last then Line(depth) else "," + rest
  }

  lemma {:induction false} LeadIsLine(depth: nat)
    ensures Lead(true, depth) == Line(depth)
    decreases depth
  {
    if depth > 0 {
      LeadIsLine(depth - 1);
      assert Line(depth - 1) + "  " == Line(depth);
    } else {
      assert seq(2 * depth, _ => ' ') == "";
    }
  }

  // ----- parts of a text -----

  predicate Part(c: string, p: nat, q: nat, t: string) {
    p <= q <= |c| && c[p..q] == t
  }

  lemma {:induction false} WordIsPart(c: string, p: nat, q: nat, t: string)
    requires Word(c, p, q, t)
    ensures Part(c, p, q, t)
  {
    AtSlice(c, p, t);
  }

  lemma {:induction false} PartOfTwo(c: string, p: nat, m: nat, q: nat, t: string, u: string)
    requires Part(c, p, m, t) && Part(c, m, q, u)
    ensures Part(c, p, q, t + u)
  {
    assert c[p..q] == c[p..m] + c[m..q];
  }

  lemma {:induction false} PartOfFive(c: string, p: nat, m: nat, k: nat, l: nat, n: nat, q: nat,
                                      a: string, b: string, d: string, e: string, f: string)
    requires Part(c, p, m, a) && Part(c, m, k, b) && Part(c, k, l, d) && Part(c, l, n, e) && Part(c, n, q, f)
    ensures Part(c, p, q, a + (b + (d + (e + f))))
  {
    PartOfTwo(c, l, n, q, e, f);
    PartOfTwo(c, k, l, q, d, e + f);
    PartOfTwo(c, m, k, q, b, d + (e + f));
    PartOfTwo(c, p, m, q, a, b + (d + (e + f)));
  }

  lemma {:induction false} PartBetween(c: string, p: nat, q: nat, open: char, t: string, close: char)
    requires p + 2 <= q <= |c| && c[p] == open && Part(c, p + 1, q - 1, t) && c[q - 1] == close
    ensures Part(c, p, q, [open] + (t + [close]))
  {
    assert c[p..q] == [c[p]] + (c[p + 1..q - 1] + [c[q - 1]]);
  }

  // ----- layouts are texts -----

  lemma {:induction false} QuotedIsPart(c: string, p: nat, q: nat, escape: char -> string, s: string)
    requires Quoted(c, p, q, escape, s)
    ensures Part(c, p, q, "\"" + (EscapeAll(escape, s) + "\""))
  {
    WordIsPart(c, p + 1, q - 1, EscapeAll(escape, s));
    PartBetween(c, p, q, '"', EscapeAll(escape, s), '"');
  }

  /** A stretch laid out in the pretty style is the pretty text. */
  lemma {:induction false} LayoutIsText(c: string, p: nat, q: nat, v: Json, escape: char -> string, depth: nat)
    requires Layout(c, p, q, v, Style(escape, true), depth)
    ensures Part(c, p, q, Text(v, escape, depth))
    decreases v, 0
  {
    match v
    case Str(s) => QuotedIsPart(c, p, q, escape, s);
    case Array(items) =>
      ItemsAreText(c, p + 1, q - 1, items, escape, depth);
      PartBetween(c, p, q, '[', ItemsText(items, escape, depth), ']');
    case Object(entries) =>
      EntriesAreText(c, p + 1, q - 1, entries, escape, depth);
      PartBetween(c, p, q, '{', EntriesText(entries, escape, depth), '}');
    case _ => WordIsPart(c, p, q, Text(v, escape, depth));
  }

  lemma {:induction false} ItemsAreText(c: string, p: nat, q: nat, items: seq<Json>, escape: char -> string, depth: nat)
    requires p <= |c| && ItemsLayout(c, p, q, items, Style(escape, true), depth)
    ensures Part(c, p, q, ItemsText(items, escape, depth))
    decreases items, 1
  {
    if items != [] {
      var m: nat, n: nat :| ItemLayout(c, p, m, n, q, items, Style(escape, true), depth);
      LeadIsPart(c, p, m, depth + 1);
      LayoutIsText(c, m, n, items[0], escape, depth + 1);
      var last, rest := items[1..] == [], ItemsText(items[1..], escape, depth);
      if last {
        LeadIsPart(c, n, q, depth);
      } else {
        ItemsAreText(c, n + 1, q, items[1..], escape, depth);
      }
      AfterIsPart(c, n, q, depth, last, rest);
      var first, after := Text(items[0], escape, depth + 1), After(depth, last, rest);
      PartOfTwo(c, m, n, q, first, after);
      PartOfTwo(c, p, m, q, Line(depth + 1), first + after);
    }
  }

  lemma {:induction false} LeadIsPart(c: string, p: nat, q: nat, depth: nat)
    requires Word(c, p, q, Lead(true, depth))
    ensures Part(c, p, q, Line(depth))
  {
    LeadIsLine(depth);
    WordIsPart(c, p, q, Line(depth));
  }

  lemma {:induction false} AfterIsPart(c: string, n: nat, q: nat, depth: nat, last: bool, rest: string)
    requires if last then Part(c, n, q, Line(depth)) else Has(c, n, ',') && Part(c, n + 1, q, rest)
    ensures Part(c, n, q, After(depth, last, rest))
  {
    if !last {
      assert c[n..q] == [c[n]] + c[n + 1..q];
    }
  }

  lemma {:induction false} EntriesAreText(c: string, p: nat, q: nat, entries: seq<Entry>, escape: char -> string, depth: nat)
    requires p <= |c| && EntriesLayout(c, p, q, entries, Style(escape, true), depth)
    ensures Part(c, p, q, EntriesText(entries, escape, depth))
    decreases entries, 2
  {
    if entries != [] {
      var m: nat, k: nat, l: nat, n: nat :| EntryLayout(c, p, m, k, l, n, q, entries, Style(escape, true), depth);
      EntryIsText(c, p, m, k, l, n, q, entries, escape, depth);
      var key, value := "\"" + (EscapeAll(escape, entries[0].key) + "\""), Text(entries[0].value, escape, depth + 1);
      var after := After(depth, entries[1..] == [], EntriesText(entries[1..], escape, depth));
      PartOfFive(c, p, m, k, l, n, q, Line(depth + 1), key, " : ", value, after);
    }
  }

  /** The parts of the first entry, and what comes after it. */
  lemma {:induction false} EntryIsText(c: string, p: nat, m: nat, k: nat, l: nat, n: nat, q: nat, entries: seq<Entry>,
                                       escape: char -> string, depth: nat)
    requires entries != [] && EntryLayout(c, p, m, k, l, n, q, entries, Style(escape, true), depth)
    ensures Part(c, p, m, Line(depth + 1)) && Part(c, m, k, "\"" + (EscapeAll(escape, entries[0].key) + "\""))
    ensures Part(c, k, l, " : ") && Part(c, l, n, Text(entries[0].value, escape, depth + 1))
    ensures Part(c, n, q, After(depth, entries[1..] == [], EntriesText(entries[1..], escape, depth)))
    decreases entries, 1
  {
    LeadIsPart(c, p, m, depth + 1);
    QuotedIsPart(c, m, k, escape, entries[0].key);
    WordIsPart(c, k, l, " : ");
    LayoutIsText(c, l, n, entries[0].value, escape, depth + 1);
    if |entries| == 1 {
      LeadIsPart(c, n, q, depth);
    } else {
      EntriesAreText(c, n + 1, q, entries[1..], escape, depth);
    }
    AfterIsPart(c, n, q, depth, entries[1..] == [], EntriesText(entries[1..], escape, depth));
  }

  // ----- the writer's spelling of characters -----

  const HEX := "0123456789ABCDEF"

  /** The characters with a letter of their own after the backslash. */
  const SHORT: map<char, char> := map[
    '"' := '"', '\\' := '\\', '\n' := 'n', '\t' := 't', '\r' := 'r', '\U{0008}' := 'b', '\U{000C}' := 'f'
  ]

  lemma {:induction false} HexIs(d: nat)
    requires d < 16
    ensures HexDigit(d, true) == HEX[d]
  {
    assert d < 8 ==> d == 0 || d == 1 || d == 2 || d == 3 || d == 4 || d == 5 || d == 6 || d == 7;
    assert d >= 8 ==> d == 8 || d == 9 || d == 10 || d == 11 || d == 12 || d == 13 || d == 14 || d == 15;
  }

  /** Control characters without a letter are spelled by their codes, and all others are themselves. */
  lemma {:induction false} EscapesAre(c: char)
    ensures JsonEscape(c)
         == if c in SHORT then ['\\', SHORT[c]]
            else if c as int < 0x20 then "\\u00" + [HEX[c as int / 16], HEX[c as int % 16]]
            else [c]
  {
    if c as int < 0x20 {
      HexIs(c as int / 16);
      HexIs(c as int % 16);
      HexIs(0);
      assert Hex4(c as int, true) == "00" + [HEX[c as int / 16], HEX[c as int % 16]];
    }
  }
}
