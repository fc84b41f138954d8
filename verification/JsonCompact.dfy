/** Compact text built by concatenation, for a given spelling of characters. */
module JsonCompact {
  import opened Options
  import opened TextAt
  import opened JsonText
  import opened JsonDocument

  function Literal(escape: char -> string, s: string): string {
    "\"" + EscapeAll(escape, s) + "\""
  }

  function Compact(escape: char -> string, v: Json): string
    decreases v, 0
  {
    match v
    case Null => "null"
    case Bool(b) => if b then "true" else "false"
    case Int(i) => IntText(i)
    case Double(t) => t
    case Str(s) => Literal(escape, s)
    case Array(items) => "[" + (CompactItems(escape, items) + "]")
    case Object(entries) => "{" + (CompactEntries(escape, entries) + "}")
  }

  function CompactItems(escape: char -> string, items: seq<Json>): string
    decreases items, 0
  {
    if items == [] then ""
    else if |items| == 1 then Compact(escape, items[0])
    else Compact(escape, items[0]) + ("," + CompactItems(escape, items[1..]))
  }

  function CompactEntry(escape: char -> string, e: Entry): string
    decreases e, 0
  {
    Literal(escape, e.key) + (":" + Compact(escape, e.value))
  }

  function CompactEntries(escape: char -> string, entries: seq<Entry>): string
    decreases entries, 0
  {
    if entries == [] then ""
    else if |entries| == 1 then CompactEntry(escape, entries[0])
    else CompactEntry(escape, entries[0]) + ("," + CompactEntries(escape, entries[1..]))
  }

  // ----- the text is a layout of the tree -----

  lemma {:induction false} CharAt(c: string, p: nat, ch: char, t: string)
    requires At(c, p, [ch] + t)
    ensures Has(c, p, ch) && At(c, p + 1, t)
  {
    assert ([ch] + t)[1..] == t;
  }

  lemma {:induction false} LiteralLayout(c: string, p: nat, escape: char -> string, s: string)
    requires At(c, p, Literal(escape, s))
    ensures Quoted(c, p, p + |Literal(escape, s)|, escape, s)
  {
    var body := EscapeAll(escape, s);
    assert Literal(escape, s) == ['"'] + (body + ['"']);
    CharAt(c, p, '"', body + ['"']);
    AtParts(c, p + 1, body, ['"']);
    assert ['"'] == ['"'] + [];
    CharAt(c, p + 1 + |body|, '"', []);
  }

  lemma {:induction false} CompactLayout(c: string, p: nat, escape: char -> string, v: Json, depth: nat)
    requires At(c, p, Compact(escape, v))
    ensures Layout(c, p, p + |Compact(escape, v)|, v, Style(escape, false), depth)
    decreases v, 0
  {
    match v
    case Str(s) => LiteralLayout(c, p, escape, s);
    case Array(items) =>
      var body := CompactItems(escape, items);
      CharAt(c, p, '[', body + "]");
      AtParts(c, p + 1, body, "]");
      assert "]" == [']'] + [];
      CharAt(c, p + 1 + |body|, ']', []);
      CompactItemsLayout(c, p + 1, escape, items, depth);
    case Object(entries) =>
      var body := CompactEntries(escape, entries);
      CharAt(c, p, '{', body + "}");
      AtParts(c, p + 1, body, "}");
      assert "}" == ['}'] + [];
      CharAt(c, p + 1 + |body|, '}', []);
      CompactEntriesLayout(c, p + 1, escape, entries, depth);
    case _ =>
  }

  lemma {:induction false} CompactItemsLayout(c: string, p: nat, escape: char -> string, items: seq<Json>, depth: nat)
    requires At(c, p, CompactItems(escape, items))
    ensures ItemsLayout(c, p, p + |CompactItems(escape, items)|, items, Style(escape, false), depth)
    decreases items, 0
  {
    if items != [] {
      var head, style := Compact(escape, items[0]), Style(escape, false);
      var n, q := p + |head|, p + |CompactItems(escape, items)|;
      if |items| > 1 {
        var rest := CompactItems(escape, items[1..]);
        AtParts(c, p, head, "," + rest);
        CharAt(c, n, ',', rest);
        CompactItemsLayout(c, n + 1, escape, items[1..], depth);
      }
      CompactLayout(c, p, escape, items[0], depth + 1);
      assert ItemLayout(c, p, p, n, q, items, style, depth);
    }
  }

  lemma {:induction false} CompactEntryLayout(c: string, p: nat, escape: char -> string, e: Entry, depth: nat)
    returns (k: nat)
    requires At(c, p, CompactEntry(escape, e))
    ensures Quoted(c, p, k, escape, e.key) && Word(c, k, k + 1, ":")
    ensures Layout(c, k + 1, p + |CompactEntry(escape, e)|, e.value, Style(escape, false), depth)
    decreases e, 0
  {
    var key, value := Literal(escape, e.key), Compact(escape, e.value);
    k := p + |key|;
    AtParts(c, p, key, ":" + value);
    LiteralLayout(c, p, escape, e.key);
    AtParts(c, k, ":", value);
    CompactLayout(c, k + 1, escape, e.value, depth);
  }

  lemma {:induction false} CompactEntriesLayout(c: string, p: nat, escape: char -> string, entries: seq<Entry>, depth: nat)
    requires At(c, p, CompactEntries(escape, entries))
    ensures EntriesLayout(c, p, p + |CompactEntries(escape, entries)|, entries, Style(escape, false), depth)
    decreases entries, 0
  {
    if entries != [] {
      var head, style := CompactEntry(escape, entries[0]), Style(escape, false);
      var n, q := p + |head|, p + |CompactEntries(escape, entries)|;
      if |entries| > 1 {
        var rest := CompactEntries(escape, entries[1..]);
        AtParts(c, p, head, "," + rest);
        CharAt(c, n, ',', rest);
        CompactEntriesLayout(c, n + 1, escape, entries[1..], depth);
      }
      var k := CompactEntryLayout(c, p, escape, entries[0], depth);
      assert EntryLayout(c, p, p, k, k + 1, n, q, entries, style, depth);
    }
  }

  /** The compact text parses to its tree exactly when all its strings can be read. */
  lemma {:induction false} CompactParses(escape: char -> string, v: Json)
    requires Plain(v) && Faithful(escape)
    ensures ParseText(Compact(escape, v)) == if Readable(escape, v) then Ok(v) else Err(InvalidEscape)
  {
    var c := Compact(escape, v);
    assert c[0..0 + |c|] == c;
    AtSlice(c, 0, c);
    CompactLayout(c, 0, escape, v, 0);
    LayoutParses(c, v, Style(escape, false));
  }
}
