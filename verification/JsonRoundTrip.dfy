/** Writing a tree and parsing the text gives the tree back, sorted when keys are sorted. */
module JsonRoundTrip {
  import opened Options
  import opened JsonText
  import opened JsonDocument
  import opened JsonCanon
  import opened JsonWriter
  import JsonParser

  /** No backspace and no form feed, the two characters the writer spells `\b` and `\f`. */
  predicate NoMuteChar(s: string) {
    forall i | 0 <= i < |s| :: s[i] as int != 0x08 && s[i] as int != 0x0C
  }

  lemma {:induction false} SpeakableMeans(s: string)
    ensures Speakable(JsonEscape, s) <==> NoMuteChar(s)
    decreases |s|
  {
    JsonEscapeIsFaithful();
    if s != [] {
      SpeakableMeans(s[1..]);
      assert forall i | 1 <= i < |s| :: s[i] == s[1..][i - 1];
      assert NoMuteChar(s[1..]) ==> forall i | 1 <= i < |s| :: s[1..][i - 1] == s[i] && s[i] as int != 0x08 && s[i] as int != 0x0C;
    }
  }

  // ----- sorting keys changes neither the numbers nor the strings -----

  lemma {:induction false} InsertKeepsEntries(escape: char -> string, e: Entry, es: seq<Entry>)
    ensures EntriesPlain(Insert(e, es)) <==> Plain(e.value) && EntriesPlain(es)
    ensures EntriesReadable(escape, Insert(e, es))
       <==> Speakable(escape, e.key) && Readable(escape, e.value) && EntriesReadable(escape, es)
    decreases |es|
  {
    if es != [] && !KeyLe(e.key, es[0].key) {
      InsertKeepsEntries(escape, e, es[1..]);
      assert Insert(e, es)[1..] == Insert(e, es[1..]);
    } else {
      assert ([e] + es)[1..] == es;
    }
  }

  lemma {:induction false} SortKeepsEntries(escape: char -> string, es: seq<Entry>)
    ensures EntriesPlain(SortByKey(es)) <==> EntriesPlain(es)
    ensures EntriesReadable(escape, SortByKey(es)) <==> EntriesReadable(escape, es)
    decreases |es|
  {
    if es != [] {
      SortKeepsEntries(escape, es[1..]);
      InsertKeepsEntries(escape, es[0], SortByKey(es[1..]));
    }
  }

  lemma {:induction false} CanonKeeps(escape: char -> string, v: Json)
    ensures Plain(Canon(v)) <==> Plain(v)
    ensures Readable(escape, Canon(v)) <==> Readable(escape, v)
    decreases v, 0
  {
    match v
    case Array(items) => CanonItemsKeep(escape, items);
    case Object(entries) =>
      CanonEntriesKeep(escape, entries);
      SortKeepsEntries(escape, CanonEntries(entries));
    case _ =>
  }

  lemma {:induction false} CanonItemsKeep(escape: char -> string, items: seq<Json>)
    ensures AllPlain(CanonItems(items)) <==> AllPlain(items)
    ensures AllReadable(escape, CanonItems(items)) <==> AllReadable(escape, items)
    decreases items, 0
  {
    if items != [] {
      CanonKeeps(escape, items[0]);
      CanonItemsKeep(escape, items[1..]);
      assert CanonItems(items)[1..] == CanonItems(items[1..]);
    }
  }

  lemma {:induction false} CanonEntriesKeep(escape: char -> string, es: seq<Entry>)
    ensures EntriesPlain(CanonEntries(es)) <==> EntriesPlain(es)
    ensures EntriesReadable(escape, CanonEntries(es)) <==> EntriesReadable(escape, es)
    decreases es, 0
  {
    if es != [] {
      CanonKeeps(escape, es[0].value);
      CanonEntriesKeep(escape, es[1..]);
      assert CanonEntries(es)[1..] == CanonEntries(es[1..]);
    }
  }

  // ----- the round trip -----

  /** Whatever text lays `v` out in this format parses to `v` as the format shows it, exactly when
      no string in `v` holds a backspace or a form feed. */
  lemma {:induction false} RoundTrip(c: string, v: Json, fmt: OutputFormatting)
    requires Plain(v) && Layout(c, 0, |c|, fmt.Shown(v), fmt.Style(), 0)
    ensures ParseText(c) == if Readable(JsonEscape, v) then Ok(fmt.Shown(v)) else Err(InvalidEscape)
  {
    JsonEscapeIsFaithful();
    CanonKeeps(JsonEscape, v);
    LayoutParses(c, fmt.Shown(v), fmt.Style());
  }

  method ToStringFmt(v: Json, fmt: OutputFormatting) returns (c: string)
    ensures Layout(c, 0, |c|, fmt.Shown(v), fmt.Style(), 0)
    ensures Plain(v) ==> ParseText(c) == if Readable(JsonEscape, v) then Ok(fmt.Shown(v)) else Err(InvalidEscape)
  {
    var w := new Writer();
    w.WriteValue(v, fmt, 0);
    c := w.out;
    if Plain(v) {
      RoundTrip(c, v, fmt);
    }
  }

  /** Encoding and decoding, as a program does it. */
  method WriteThenParse(v: Json, fmt: OutputFormatting) returns (r: Result<Json, Error>)
    requires Plain(v)
    ensures r == if Readable(JsonEscape, v) then Ok(fmt.Shown(v)) else Err(InvalidEscape)
  {
    var c := ToStringFmt(v, fmt);
    r := JsonParser.Parse(c);
  }
}
