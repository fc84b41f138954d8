/** The writer that appends a tree's text to a growing string, in four formats, and the round trip. */
module JsonWriter {
  import opened Options
  import opened TextAt
  import opened JsonText
  import opened JsonDocument
  import opened JsonCanon
  import JsonParser

  datatype OutputFormatting = OutputFormatting(prettyPrinted: bool, sortedKeys: bool) {
    function Style(): Style {
      JsonDocument.Style(JsonEscape, prettyPrinted)
    }

    /** The tree as this format shows it. */
    function Shown(v: Json): Json {
      if sortedKeys then Canon(v) else v
    }

    function ShownItems(items: seq<Json>): (r: seq<Json>)
      ensures |r| == |items|
    {
      if sortedKeys then CanonItems(items) else items
    }

    function ShownEntries(es: seq<Entry>): (r: seq<Entry>)
      ensures |r| == |es|
    {
      if sortedKeys then CanonEntries(es) else es
    }

    lemma {:induction false} ShownItemsAt(items: seq<Json>, i: nat)
      requires i < |items|
      ensures ShownItems(items)[i] == Shown(items[i])
    {
      CanonItemsAt(items, i);
    }

    lemma {:induction false} ShownEntriesAt(es: seq<Entry>, i: nat)
      requires i < |es|
      ensures ShownEntries(es)[i] == Entry(es[i].key, Shown(es[i].value))
    {
      CanonEntriesAt(es, i);
    }

    /** Sorting the entries first and then showing their values gives the shown object. */
    lemma {:induction false} OrderedShown(es: seq<Entry>)
      ensures var ordered := if sortedKeys then SortByKey(es) else es;
              Shown(Object(es)) == Object(ShownEntries(ordered)) && forall e <- ordered :: e in es
    {
      SortCommutes(es);
      forall e: Entry
        ensures e in SortByKey(es) <==> e in es
      {
        SortMembers(es, e);
      }
    }
  }

  // ----- a layout stays put while text is appended -----

  lemma {:induction false} LayoutFrame(c: string, d: string, p: nat, q: nat, v: Json, style: Style, depth: nat)
    requires Layout(c, p, q, v, style, depth) && c <= d
    ensures Layout(d, p, q, v, style, depth)
    decreases v, 0
  {
    match v
    case Null => AtFrame(c, d, p, "null");
    case Bool(b) => AtFrame(c, d, p, if b then "true" else "false");
    case Int(i) => AtFrame(c, d, p, IntText(i));
    case Double(t) => AtFrame(c, d, p, t);
    case Str(s) => AtFrame(c, d, p + 1, EscapeAll(style.escape, s));
    case Array(items) => ItemsFrame(c, d, p + 1, q - 1, items, style, depth);
    case Object(entries) => EntriesFrame(c, d, p + 1, q - 1, entries, style, depth);
  }

  lemma {:induction false} ItemsFrame(c: string, d: string, p: nat, q: nat, items: seq<Json>, style: Style, depth: nat)
    requires ItemsLayout(c, p, q, items, style, depth) && c <= d
    ensures ItemsLayout(d, p, q, items, style, depth)
    decreases items, 0
  {
    if items != [] {
      var m: nat, n: nat :| ItemLayout(c, p, m, n, q, items, style, depth);
      AtFrame(c, d, p, Lead(style.pretty, depth + 1));
      LayoutFrame(c, d, m, n, items[0], style, depth + 1);
      if |items| == 1 {
        AtFrame(c, d, n, Lead(style.pretty, depth));
      } else {
        ItemsFrame(c, d, n + 1, q, items[1..], style, depth);
      }
      assert ItemLayout(d, p, m, n, q, items, style, depth);
    }
  }

  lemma {:induction false} EntriesFrame(c: string, d: string, p: nat, q: nat, entries: seq<Entry>, style: Style, depth: nat)
    requires EntriesLayout(c, p, q, entries, style, depth) && c <= d
    ensures EntriesLayout(d, p, q, entries, style, depth)
    decreases entries, 0
  {
    if entries != [] {
      var m: nat, k: nat, l: nat, n: nat :| EntryLayout(c, p, m, k, l, n, q, entries, style, depth);
      AtFrame(c, d, p, Lead(style.pretty, depth + 1));
      AtFrame(c, d, m + 1, EscapeAll(style.escape, entries[0].key));
      AtFrame(c, d, k, Colon(style.pretty));
      LayoutFrame(c, d, l, n, entries[0].value, style, if style.pretty then depth + 1 else depth);
      if |entries| == 1 {
        AtFrame(c, d, n, Lead(style.pretty, depth));
      } else {
        EntriesFrame(c, d, n + 1, q, entries[1..], style, depth);
      }
      assert EntryLayout(d, p, m, k, l, n, q, entries, style, depth);
    }
  }

  // ----- lists under construction -----

  /** The first `k` elements, each followed by a comma, occupy `c[p..q]`. */
  ghost predicate ItemsPrefix(c: string, p: nat, q: nat, items: seq<Json>, k: nat, style: Style, depth: nat)
    requires k <= |items|
    decreases k
  {
    if k == 0 then p == q
    else exists m: nat, n: nat :: ItemDone(c, p, m, n, q, items, k, style, depth)
  }

  ghost predicate ItemDone(c: string, p: nat, m: nat, n: nat, q: nat, items: seq<Json>, k: nat, style: Style, depth: nat)
    requires 0 < k <= |items|
    decreases k, 0
  {
    && Word(c, p, m, Lead(style.pretty, depth + 1))
    && Layout(c, m, n, items[0], style, depth + 1)
    && Has(c, n, ',')
    && ItemsPrefix(c, n + 1, q, items[1..], k - 1, style, depth)
  }

  /** `k > 0` elements with no comma after the last one, which lies in `[m, |c|]`. */
  ghost predicate ItemOpen(c: string, p: nat, q: nat, m: nat, items: seq<Json>, k: nat, style: Style, depth: nat)
    requires 0 < k <= |items|
  {
    && ItemsPrefix(c, p, q, items, k - 1, style, depth)
    && Word(c, q, m, Lead(style.pretty, depth + 1))
    && Layout(c, m, |c|, items[k - 1], style, depth + 1)
  }

  lemma {:induction false} ItemsPrefixFrame(c: string, d: string, p: nat, q: nat, items: seq<Json>, k: nat,
                                            style: Style, depth: nat)
    requires k <= |items| && ItemsPrefix(c, p, q, items, k, style, depth) && c <= d
    ensures ItemsPrefix(d, p, q, items, k, style, depth)
    decreases k
  {
    if k > 0 {
      var m: nat, n: nat :| ItemDone(c, p, m, n, q, items, k, style, depth);
      AtFrame(c, d, p, Lead(style.pretty, depth + 1));
      LayoutFrame(c, d, m, n, items[0], style, depth + 1);
      ItemsPrefixFrame(c, d, n + 1, q, items[1..], k - 1, style, depth);
      assert ItemDone(d, p, m, n, q, items, k, style, depth);
    }
  }

  /** One more element with its comma. */
  lemma {:induction false} ItemsPrefixGrows(c: string, p: nat, q: nat, m: nat, n: nat, items: seq<Json>, k: nat,
                                            style: Style, depth: nat)
    requires k < |items| && ItemsPrefix(c, p, q, items, k, style, depth)
    requires Word(c, q, m, Lead(style.pretty, depth + 1)) && Layout(c, m, n, items[k], style, depth + 1) && Has(c, n, ',')
    ensures ItemsPrefix(c, p, n + 1, items, k + 1, style, depth)
    decreases k
  {
    if k == 0 {
      assert ItemsPrefix(c, n + 1, n + 1, items[1..], 0, style, depth);
      assert ItemDone(c, p, m, n, n + 1, items, 1, style, depth);
    } else {
      var m0: nat, n0: nat :| ItemDone(c, p, m0, n0, q, items, k, style, depth);
      ItemsPrefixGrows(c, n0 + 1, q, m, n, items[1..], k - 1, style, depth);
      assert ItemDone(c, p, m0, n0, n + 1, items, k + 1, style, depth);
    }
  }

  /** The last element makes the prefix a full list. */
  lemma {:induction false} ItemsClose(c: string, p: nat, q: nat, m: nat, n: nat, r: nat, items: seq<Json>,
                                      style: Style, depth: nat)
    requires items != [] && ItemsPrefix(c, p, q, items, |items| - 1, style, depth)
    requires Word(c, q, m, Lead(style.pretty, depth + 1)) && Layout(c, m, n, items[|items| - 1], style, depth + 1)
    requires Word(c, n, r, Lead(style.pretty, depth))
    ensures ItemsLayout(c, p, r, items, style, depth)
    decreases |items|
  {
    if |items| == 1 {
      assert ItemLayout(c, p, m, n, r, items, style, depth);
    } else {
      var m0: nat, n0: nat :| ItemDone(c, p, m0, n0, q, items, |items| - 1, style, depth);
      ItemsClose(c, n0 + 1, q, m, n, r, items[1..], style, depth);
      assert ItemLayout(c, p, m0, n0, r, items, style, depth);
    }
  }

  /** A line break and an element after the prefix make it open. */
  lemma {:induction false} ItemOpens(before: string, led: string, c: string, p: nat, items: seq<Json>, k: nat,
                                     style: Style, depth: nat)
    requires k < |items| && ItemsPrefix(before, p, |before|, items, k, style, depth)
    requires before <= led <= c && Word(led, |before|, |led|, Lead(style.pretty, depth + 1))
    requires Layout(c, |led|, |c|, items[k], style, depth + 1)
    ensures ItemOpen(c, p, |before|, |led|, items, k + 1, style, depth)
  {
    ItemsPrefixFrame(before, c, p, |before|, items, k, style, depth);
    AtFrame(led, c, |before|, Lead(style.pretty, depth + 1));
  }

  /** A comma after the open element. */
  lemma {:induction false} ItemComma(c: string, d: string, p: nat, q: nat, m: nat, items: seq<Json>, k: nat,
                                     style: Style, depth: nat)
    requires 0 < k <= |items| && ItemOpen(c, p, q, m, items, k, style, depth)
    requires c <= d && Has(d, |c|, ',')
    ensures ItemsPrefix(d, p, |c| + 1, items, k, style, depth)
  {
    ItemsPrefixFrame(c, d, p, q, items, k - 1, style, depth);
    AtFrame(c, d, q, Lead(style.pretty, depth + 1));
    LayoutFrame(c, d, m, |c|, items[k - 1], style, depth + 1);
    ItemsPrefixGrows(d, p, q, m, |c|, items, k - 1, style, depth);
  }

  /** The closing line break after the last element. */
  lemma {:induction false} ItemsEnd(c: string, d: string, p: nat, q: nat, m: nat, items: seq<Json>, style: Style, depth: nat)
    requires items != [] && ItemOpen(c, p, q, m, items, |items|, style, depth)
    requires c <= d && Word(d, |c|, |d|, Lead(style.pretty, depth))
    ensures ItemsLayout(d, p, |d|, items, style, depth)
  {
    ItemsPrefixFrame(c, d, p, q, items, |items| - 1, style, depth);
    AtFrame(c, d, q, Lead(style.pretty, depth + 1));
    LayoutFrame(c, d, m, |c|, items[|items| - 1], style, depth + 1);
    ItemsClose(d, p, q, m, |c|, |d|, items, style, depth);
  }

  /** The first `k` entries, each followed by a comma, occupy `c[p..q]`. */
  ghost predicate EntriesPrefix(c: string, p: nat, q: nat, entries: seq<Entry>, k: nat, style: Style, depth: nat)
    requires k <= |entries|
    decreases k
  {
    if k == 0 then p == q
    else exists m: nat, i: nat, l: nat, n: nat :: EntryDone(c, p, m, i, l, n, q, entries, k, style, depth)
  }

  /** Line break, quoted key, colon and value of one entry. */
  ghost predicate EntryBody(c: string, p: nat, m: nat, i: nat, l: nat, n: nat, entry: Entry, style: Style, depth: nat) {
    && Word(c, p, m, Lead(style.pretty, depth + 1))
    && Quoted(c, m, i, style.escape, entry.key)
    && Word(c, i, l, Colon(style.pretty))
    && Layout(c, l, n, entry.value, style, if style.pretty then depth + 1 else depth)
  }

  ghost predicate EntryDone(c: string, p: nat, m: nat, i: nat, l: nat, n: nat, q: nat, entries: seq<Entry>, k: nat,
                            style: Style, depth: nat)
    requires 0 < k <= |entries|
    decreases k, 0
  {
    && EntryBody(c, p, m, i, l, n, entries[0], style, depth)
    && Has(c, n, ',')
    && EntriesPrefix(c, n + 1, q, entries[1..], k - 1, style, depth)
  }

  ghost predicate EntryOpen(c: string, p: nat, q: nat, m: nat, i: nat, l: nat, entries: seq<Entry>, k: nat,
                            style: Style, depth: nat)
    requires 0 < k <= |entries|
  {
    EntriesPrefix(c, p, q, entries, k - 1, style, depth) && EntryBody(c, q, m, i, l, |c|, entries[k - 1], style, depth)
  }

  lemma {:induction false} EntryBodyFrame(c: string, d: string, p: nat, m: nat, i: nat, l: nat, n: nat, entry: Entry,
                                          style: Style, depth: nat)
    requires EntryBody(c, p, m, i, l, n, entry, style, depth) && c <= d
    ensures EntryBody(d, p, m, i, l, n, entry, style, depth)
  {
    AtFrame(c, d, p, Lead(style.pretty, depth + 1));
    AtFrame(c, d, m + 1, EscapeAll(style.escape, entry.key));
    AtFrame(c, d, i, Colon(style.pretty));
    LayoutFrame(c, d, l, n, entry.value, style, if style.pretty then depth + 1 else depth);
  }

  lemma {:induction false} EntriesPrefixFrame(c: string, d: string, p: nat, q: nat, entries: seq<Entry>, k: nat,
                                              style: Style, depth: nat)
    requires k <= |entries| && EntriesPrefix(c, p, q, entries, k, style, depth) && c <= d
    ensures EntriesPrefix(d, p, q, entries, k, style, depth)
    decreases k
  {
    if k > 0 {
      var m: nat, i: nat, l: nat, n: nat :| EntryDone(c, p, m, i, l, n, q, entries, k, style, depth);
      EntryBodyFrame(c, d, p, m, i, l, n, entries[0], style, depth);
      EntriesPrefixFrame(c, d, n + 1, q, entries[1..], k - 1, style, depth);
      assert EntryDone(d, p, m, i, l, n, q, entries, k, style, depth);
    }
  }

  lemma {:induction false} EntriesPrefixGrows(c: string, p: nat, q: nat, m: nat, i: nat, l: nat, n: nat,
                                              entries: seq<Entry>, k: nat,
                                              style: Style, depth: nat)
    requires k < |entries| && EntriesPrefix(c, p, q, entries, k, style, depth)
    requires EntryBody(c, q, m, i, l, n, entries[k], style, depth) && Has(c, n, ',')
    ensures EntriesPrefix(c, p, n + 1, entries, k + 1, style, depth)
    decreases k
  {
    if k == 0 {
      assert EntriesPrefix(c, n + 1, n + 1, entries[1..], 0, style, depth);
      assert EntryDone(c, p, m, i, l, n, n + 1, entries, 1, style, depth);
    } else {
      var m0: nat, i0: nat, l0: nat, n0: nat :| EntryDone(c, p, m0, i0, l0, n0, q, entries, k, style, depth);
      EntriesPrefixGrows(c, n0 + 1, q, m, i, l, n, entries[1..], k - 1, style, depth);
      assert EntryDone(c, p, m0, i0, l0, n0, n + 1, entries, k + 1, style, depth);
    }
  }

  lemma {:induction false} EntriesClose(c: string, p: nat, q: nat, m: nat, i: nat, l: nat, n: nat, r: nat, entries: seq<Entry>,
                                        style: Style, depth: nat)
    requires entries != [] && EntriesPrefix(c, p, q, entries, |entries| - 1, style, depth)
    requires EntryBody(c, q, m, i, l, n, entries[|entries| - 1], style, depth) && Word(c, n, r, Lead(style.pretty, depth))
    ensures EntriesLayout(c, p, r, entries, style, depth)
    decreases |entries|
  {
    if |entries| == 1 {
      assert EntryLayout(c, p, m, i, l, n, r, entries, style, depth);
    } else {
      var m0: nat, i0: nat, l0: nat, n0: nat :| EntryDone(c, p, m0, i0, l0, n0, q, entries, |entries| - 1, style, depth);
      EntriesClose(c, n0 + 1, q, m, i, l, n, r, entries[1..], style, depth);
      EntryInFront(c, p, m0, i0, l0, n0, q, r, entries, style, depth);
    }
  }

  lemma {:induction false} EntryInFront(c: string, p: nat, m: nat, i: nat, l: nat, n: nat, q: nat, r: nat, entries: seq<Entry>,
                                        style: Style, depth: nat)
    requires |entries| > 1 && EntryDone(c, p, m, i, l, n, q, entries, |entries| - 1, style, depth)
    requires EntriesLayout(c, n + 1, r, entries[1..], style, depth)
    ensures EntriesLayout(c, p, r, entries, style, depth)
  {
    assert EntryLayout(c, p, m, i, l, n, r, entries, style, depth);
  }

  /** A line break, a key and a value after the prefix make it open. */
  lemma {:induction false} EntryOpens(before: string, c: string, p: nat, m: nat, i: nat, l: nat, entries: seq<Entry>, k: nat,
                                      style: Style, depth: nat)
    requires k < |entries| && EntriesPrefix(before, p, |before|, entries, k, style, depth)
    requires before <= c && EntryBody(c, |before|, m, i, l, |c|, entries[k], style, depth)
    ensures EntryOpen(c, p, |before|, m, i, l, entries, k + 1, style, depth)
  {
    EntriesPrefixFrame(before, c, p, |before|, entries, k, style, depth);
  }

  lemma {:induction false} EntryComma(c: string, d: string, p: nat, q: nat, m: nat, i: nat, l: nat, entries: seq<Entry>, k: nat,
                                      style: Style, depth: nat)
    requires 0 < k <= |entries| && EntryOpen(c, p, q, m, i, l, entries, k, style, depth)
    requires c <= d && Has(d, |c|, ',')
    ensures EntriesPrefix(d, p, |c| + 1, entries, k, style, depth)
  {
    EntriesPrefixFrame(c, d, p, q, entries, k - 1, style, depth);
    EntryBodyFrame(c, d, q, m, i, l, |c|, entries[k - 1], style, depth);
    EntriesPrefixGrows(d, p, q, m, i, l, |c|, entries, k - 1, style, depth);
  }

  lemma {:induction false} EntriesEnd(c: string, d: string, p: nat, q: nat, m: nat, i: nat, l: nat,
                                      entries: seq<Entry>, style: Style, depth: nat)
    requires entries != [] && EntryOpen(c, p, q, m, i, l, entries, |entries|, style, depth)
    requires c <= d && Word(d, |c|, |d|, Lead(style.pretty, depth))
    ensures EntriesLayout(d, p, |d|, entries, style, depth)
  {
    EntriesPrefixFrame(c, d, p, q, entries, |entries| - 1, style, depth);
    EntryBodyFrame(c, d, q, m, i, l, |c|, entries[|entries| - 1], style, depth);
    EntriesClose(d, p, q, m, i, l, |c|, |d|, entries, style, depth);
  }

  // ----- the writer -----

  lemma {:induction false} Appended(c: string, t: string)
    ensures Word(c + t, |c|, |c + t|, t)
  {
    AtSlice(c + t, |c|, t);
  }

  class Writer {
    var out: string

    constructor ()
      ensures out == ""
    {
      out := "";
    }

    method Push(t: string)
      modifies this
      ensures out == old(out) + t && Word(out, |old(out)|, |out|, t)
    {
      Appended(out, t);
      out := out + t;
    }

    /** A line break and indentation, or nothing. */
    method PushLead(pretty: bool, depth: nat)
      modifies this
      ensures old(out) <= out && Word(out, |old(out)|, |out|, Lead(pretty, depth))
    {
      if pretty {
        out := out + "\n";
        PushIndent(depth);
      }
      assert out == old(out) + Lead(pretty, depth);
      Appended(old(out), Lead(pretty, depth));
    }

    /** Two blanks for each level, after a line break. */
    method PushIndent(depth: nat)
      requires |out| > 0 && out[|out| - 1] == '\n'
      modifies this
      ensures out == old(out)[..|old(out)| - 1] + Lead(true, depth)
    {
      ghost var start := out[..|out| - 1];
      assert out == start + "\n";
      for i := 0 to depth
        invariant out == start + Lead(true, i)
      {
        out := out + "  ";
      }
    }

    method WriteString(s: string)
      modifies this
      ensures old(out) <= out && Quoted(out, |old(out)|, |out|, JsonEscape, s)
    {
      out := out + "\"";
      ghost var start := out;
      for i := 0 to |s|
        invariant out == start + EscapeAll(JsonEscape, s[..i])
      {
        var c := s[i];
        EscapeGrows(s[..i], c);
        assert s[..i] + [c] == s[..i + 1];
        WriteChar(c);
      }
      assert s[..|s|] == s;
      Appended(start, EscapeAll(JsonEscape, s));
      AtFrame(out, out + "\"", |start|, EscapeAll(JsonEscape, s));
      out := out + "\"";
    }

    method WriteChar(c: char)
      modifies this
      ensures out == old(out) + JsonEscape(c)
    {
      match c
      case '"' => out := out + "\\\"";
      case '\\' => out := out + "\\\\";
      case '\n' => out := out + "\\n";
      case '\t' => out := out + "\\t";
      case '\r' => out := out + "\\r";
      case _ =>
        if c as int == 0x08 {
          out := out + "\\b";
        } else if c as int == 0x0C {
          out := out + "\\f";
        } else if c as int < 0x20 {
          out := out + ("\\u" + Hex4(c as int, true));
        } else {
          out := out + [c];
        }
    }

    static lemma {:induction false} EscapeGrows(s: string, c: char)
      ensures EscapeAll(JsonEscape, s + [c]) == EscapeAll(JsonEscape, s) + JsonEscape(c)
      decreases |s|
    {
      if s == [] {
        assert [c][1..] == [] && s + [c] == [c];
      } else {
        EscapeGrows(s[1..], c);
        assert (s + [c])[1..] == s[1..] + [c];
      }
    }

    method WriteValue(v: Json, fmt: OutputFormatting, depth: nat)
      modifies this
      ensures old(out) <= out && Layout(out, |old(out)|, |out|, fmt.Shown(v), fmt.Style(), depth)
      decreases v, 0
    {
      match v
      case Null => Push("null");
      case Bool(b) => Push(if b then "true" else "false");
      case Int(i) => Push(IntText(i));
      case Double(t) => Push(t);
      case Str(s) => WriteString(s);
      case Array(items) => WriteArray(items, fmt, depth);
      case Object(entries) => WriteObject(entries, fmt, depth);
    }

    method WriteArray(items: seq<Json>, fmt: OutputFormatting, depth: nat)
      modifies this
      ensures old(out) <= out && Layout(out, |old(out)|, |out|, fmt.Shown(Array(items)), fmt.Style(), depth)
      decreases items, 1
    {
      Push("[");
      ghost var start := out;
      if fmt.prettyPrinted && items != [] {
        WriteItemsPretty(items, fmt, depth);
      } else {
        WriteItemsCompact(items, fmt, depth);
      }
      ItemsFrame(out, out + "]", |start|, |out|, fmt.ShownItems(items), fmt.Style(), depth);
      Push("]");
    }

    method WriteObject(entries: seq<Entry>, fmt: OutputFormatting, depth: nat)
      modifies this
      ensures old(out) <= out && Layout(out, |old(out)|, |out|, fmt.Shown(Object(entries)), fmt.Style(), depth)
      decreases entries, 2
    {
      Push("{");
      ghost var start := out;
      var ordered := if fmt.sortedKeys then SortByKey(entries) else entries;
      fmt.OrderedShown(entries);
      if fmt.prettyPrinted && ordered != [] {
        WriteEntriesPretty(ordered, entries, fmt, depth);
      } else {
        WriteEntriesCompact(ordered, entries, fmt, depth);
      }
      ghost var body := out;
      Push("}");
      EntriesFrame(body, out, |start|, |body|, fmt.ShownEntries(ordered), fmt.Style(), depth);
      assert fmt.Shown(Object(entries)) == Object(fmt.ShownEntries(ordered));
    }

    method WriteItemsPretty(items: seq<Json>, fmt: OutputFormatting, depth: nat)
      requires fmt.prettyPrinted && items != []
      modifies this
      ensures old(out) <= out && ItemsLayout(out, |old(out)|, |out|, fmt.ShownItems(items), fmt.Style(), depth)
      decreases items, 0
    {
      ghost var shown, style, base := fmt.ShownItems(items), fmt.Style(), |out|;
      ghost var q: nat, m: nat := base, base;
      for i := 0 to |items|
        invariant old(out) <= out
        invariant i < |items| ==> ItemsPrefix(out, base, |out|, shown, i, style, depth)
        invariant i == |items| ==> ItemOpen(out, base, q, m, shown, i, style, depth)
      {
        ghost var before := out;
        PushLead(true, depth + 1);
        ghost var led := out;
        WriteValue(items[i], fmt, depth + 1);
        fmt.ShownItemsAt(items, i);
        q, m := |before|, |led|;
        ItemOpens(before, led, out, base, shown, i, style, depth);
        if i + 1 < |items| {
          ItemComma(out, out + ",", base, q, m, shown, i + 1, style, depth);
          out := out + ",";
        }
      }
      ghost var last := out;
      PushLead(true, depth);
      ItemsEnd(last, out, base, q, m, shown, style, depth);
    }

    method WriteItemsCompact(items: seq<Json>, fmt: OutputFormatting, depth: nat)
      requires !fmt.prettyPrinted || items == []
      modifies this
      ensures old(out) <= out && ItemsLayout(out, |old(out)|, |out|, fmt.ShownItems(items), fmt.Style(), depth)
      decreases items, 0
    {
      ghost var shown, style, base := fmt.ShownItems(items), fmt.Style(), |out|;
      ghost var q: nat, m: nat := base, base;
      for i := 0 to |items|
        invariant old(out) <= out
        invariant i == 0 ==> |out| == base
        invariant i > 0 ==> ItemOpen(out, base, q, m, shown, i, style, depth)
      {
        if i > 0 {
          ItemComma(out, out + ",", base, q, m, shown, i, style, depth);
          out := out + ",";
        }
        ghost var before := out;
        WriteValue(items[i], fmt, depth + 1);
        fmt.ShownItemsAt(items, i);
        q, m := |before|, |before|;
        ItemOpens(before, before, out, base, shown, i, style, depth);
      }
      if items != [] {
        ItemsEnd(out, out, base, q, m, shown, style, depth);
      }
    }

    /** One entry after its line break: key, colon, value. */
    method WriteEntry(entry: Entry, ghost source: seq<Entry>, fmt: OutputFormatting, depth: nat, ghost p: nat)
      returns (ghost i: nat, ghost l: nat)
      requires entry in source && Word(out, p, |out|, Lead(fmt.prettyPrinted, depth + 1))
      modifies this
      ensures old(out) <= out
      ensures EntryBody(out, p, |old(out)|, i, l, |out|, Entry(entry.key, fmt.Shown(entry.value)), fmt.Style(), depth)
      decreases source, 0, 0
    {
      ghost var j :| 0 <= j < |source| && source[j] == entry;
      ghost var start := out;
      WriteString(entry.key);
      ghost var keyed := out;
      Push(Colon(fmt.prettyPrinted));
      ghost var coloned := out;
      i, l := |keyed|, |coloned|;
      WriteValue(entry.value, fmt, if fmt.prettyPrinted then depth + 1 else depth);
      AtFrame(start, out, p, Lead(fmt.prettyPrinted, depth + 1));
      AtFrame(keyed, out, |start| + 1, EscapeAll(JsonEscape, entry.key));
      AtFrame(coloned, out, i, Colon(fmt.prettyPrinted));
    }

    method WriteEntriesPretty(ordered: seq<Entry>, ghost source: seq<Entry>, fmt: OutputFormatting, depth: nat)
      requires fmt.prettyPrinted && ordered != [] && forall e <- ordered :: e in source
      modifies this
      ensures old(out) <= out && EntriesLayout(out, |old(out)|, |out|, fmt.ShownEntries(ordered), fmt.Style(), depth)
      decreases source, 1
    {
      ghost var shown, style, base := fmt.ShownEntries(ordered), fmt.Style(), |out|;
      ghost var q: nat, m: nat, k: nat, l: nat := base, base, base, base;
      for i := 0 to |ordered|
        invariant old(out) <= out
        invariant i < |ordered| ==> EntriesPrefix(out, base, |out|, shown, i, style, depth)
        invariant i == |ordered| ==> EntryOpen(out, base, q, m, k, l, shown, i, style, depth)
      {
        ghost var before := out;
        PushLead(true, depth + 1);
        q, m := |before|, |out|;
        fmt.ShownEntriesAt(ordered, i);
        k, l := WriteEntry(ordered[i], source, fmt, depth, q);
        EntryOpens(before, out, base, m, k, l, shown, i, style, depth);
        if i + 1 < |ordered| {
          EntryComma(out, out + ",", base, q, m, k, l, shown, i + 1, style, depth);
          out := out + ",";
        }
      }
      ghost var last := out;
      PushLead(true, depth);
      EntriesEnd(last, out, base, q, m, k, l, shown, style, depth);
    }

    method WriteEntriesCompact(ordered: seq<Entry>, ghost source: seq<Entry>, fmt: OutputFormatting, depth: nat)
      requires (!fmt.prettyPrinted || ordered == []) && forall e <- ordered :: e in source
      modifies this
      ensures old(out) <= out && EntriesLayout(out, |old(out)|, |out|, fmt.ShownEntries(ordered), fmt.Style(), depth)
      decreases source, 1
    {
      ghost var shown, style, base := fmt.ShownEntries(ordered), fmt.Style(), |out|;
      ghost var q: nat, m: nat, k: nat, l: nat := base, base, base, base;
      for i := 0 to |ordered|
        invariant old(out) <= out
        invariant i == 0 ==> |out| == base
        invariant i > 0 ==> EntryOpen(out, base, q, m, k, l, shown, i, style, depth)
      {
        if i > 0 {
          EntryComma(out, out + ",", base, q, m, k, l, shown, i, style, depth);
          out := out + ",";
        }
        ghost var before := out;
        q, m := |before|, |before|;
        assert Word(out, q, m, Lead(fmt.prettyPrinted, depth + 1)) by {
          assert Lead(fmt.prettyPrinted, depth + 1) == "";
        }
        fmt.ShownEntriesAt(ordered, i);
        k, l := WriteEntry(ordered[i], source, fmt, depth, q);
        EntryOpens(before, out, base, m, k, l, shown, i, style, depth);
      }
      if ordered != [] {
        assert Word(out, |out|, |out|, Lead(style.pretty, depth)) by {
          assert Lead(style.pretty, depth) == "";
        }
        EntriesEnd(out, out, base, q, m, k, l, shown, style, depth);
      }
    }
  }
}
