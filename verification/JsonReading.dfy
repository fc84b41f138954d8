/** The JSON parser reads exactly the documents of the grammar, each as its tree. */
module JsonReading {
  import opened Digits
  import opened Options
  import opened TextAt
  import opened JsonText
  import opened JsonDocument
  import opened JsonGrammar

  lemma {:induction false} BlanksAre(c: string, p: nat, q: nat)
    requires p <= |c|
    ensures SkipWs(c, p) == q <==> Blanks(c, p, q)
  {
    if Blanks(c, p, q) {
      SkipSpaces(c, p, q);
    }
    if SkipWs(c, p) == q {
      Skipped(c, p);
    }
  }

  lemma {:induction false} Skipped(c: string, p: nat)
    requires p <= |c|
    ensures Blanks(c, p, SkipWs(c, p))
    decreases |c| - p
  {
    if p < |c| && IsSpace(c[p]) {
      Skipped(c, p + 1);
    }
  }

  // ----- strings -----

  lemma {:induction false} HexIs(h: string, text: string)
    ensures HexEscape(h, text)
       <==> text == match FromHex(h) case None => [] case Some(n) => (match CharOf(n) case None => [] case Some(ch) => [ch])
  {
  }

  lemma {:induction false} PieceIs(c: string, p: nat, q: nat, text: string)
    ensures ReadPiece(c, p) == Read(text, q) <==> PieceAt(c, p, q, text)
  {
    if p + 1 < |c| && c[p] == '\\' && c[p + 1] == 'u' {
      HexIs(c[p + 2..if p + 6 <= |c| then p + 6 else |c|], text);
    }
  }

  lemma {:induction false} PiecesAreRead(c: string, p: nat, q: nat, s: string, sofar: string)
    requires PiecesAt(c, p, q, s) && Has(c, q, '"')
    ensures p <= |c| && ReadBody(c, p, sofar) == Got(sofar + s, q + 1)
    decreases q - p
  {
    if p >= q {
      assert sofar + s == sofar;
    } else {
      var m: nat, text: string :| p < m <= q && text <= s && PieceAt(c, p, m, text) && PiecesAt(c, m, q, s[|text|..]);
      PieceIs(c, p, m, text);
      PiecesAreRead(c, m, q, s[|text|..], sofar + text);
      assert sofar + text + s[|text|..] == sofar + s;
    }
  }

  lemma {:induction false} PiecesWereRead(c: string, p: nat, sofar: string, r: Parsed<string>) returns (s: string)
    requires p <= |c| && r == ReadBody(c, p, sofar) && r.Got?
    ensures r.value == sofar + s && p < r.next && PiecesAt(c, p, r.next - 1, s) && Has(c, r.next - 1, '"')
    decreases |c| - p
  {
    match ReadPiece(c, p)
    case Closed(_) =>
      s := [];
      assert sofar + s == sofar;
    case Read(text, m) =>
      PieceIs(c, p, m, text);
      var rest := PiecesWereRead(c, m, sofar + text, r);
      s := text + rest;
      assert s[|text|..] == rest && sofar + text + rest == sofar + s;
  }

  lemma {:induction false} StringIsRead(c: string, p: nat, q: nat, s: string)
    requires StringAt(c, p, q, s)
    ensures p < |c| && ReadString(c, p) == Got(s, q)
  {
    PiecesAreRead(c, p + 1, q - 1, s, []);
    assert [] + s == s;
  }

  lemma {:induction false} StringWasRead(c: string, p: nat, q: nat, s: string)
    requires p <= |c| && ReadString(c, p) == Got(s, q)
    ensures StringAt(c, p, q, s)
  {
    var rest := PiecesWereRead(c, p + 1, [], Got(s, q));
    assert [] + rest == rest;
  }

  // ----- numbers -----

  lemma {:induction false} NumberRunIs(c: string, p: nat, q: nat)
    requires p < |c| && (c[p] == '-' || IsDigit(c[p]))
    ensures NumberRun(c, p, q) <==> q == NumberEnd(c, if c[p] == '-' then p + 1 else p)
  {
    NumberEndIs(c, p + 1);
    if NumberRun(c, p, q) {
      RunToEnd(c, p + 1, q);
    }
  }

  lemma {:induction false} NumberEndIs(c: string, p: nat)
    requires p <= |c|
    ensures var q := NumberEnd(c, p); (forall i | p <= i < q :: IsNumberChar(c[i])) && (q < |c| ==> !IsNumberChar(c[q]))
    decreases |c| - p
  {
    if p < |c| && IsNumberChar(c[p]) {
      NumberEndIs(c, p + 1);
    }
  }

  lemma {:induction false} RunToEnd(c: string, p: nat, q: nat)
    requires p <= q <= |c| && (forall i | p <= i < q :: IsNumberChar(c[i])) && (q < |c| ==> !IsNumberChar(c[q]))
    ensures NumberEnd(c, p) == q
    decreases q - p
  {
    if p < q {
      RunToEnd(c, p + 1, q);
    }
  }

  lemma {:induction false} IntegerIs(t: string, i: int)
    requires t != []
    ensures IntOf(t) == Some(i) <==> IntegerText(t, i) && I64_MIN <= i <= I64_MAX
  {
  }

  // ----- floating point -----

  lemma {:induction false} DigitsEndIs(t: string, p: nat)
    requires p <= |t|
    ensures var q := DigitsEnd(t, p); AllDigits(t[p..q]) && (q < |t| ==> !IsDigit(t[q]))
    decreases |t| - p
  {
    if p < |t| && IsDigit(t[p]) {
      DigitsEndIs(t, p + 1);
      var q := DigitsEnd(t, p);
      assert t[p..q] == [t[p]] + t[p + 1..q];
    }
  }

  lemma {:induction false} DigitsTo(t: string, p: nat, q: nat)
    requires p <= q <= |t| && (forall i | p <= i < q :: IsDigit(t[i])) && (q < |t| ==> !IsDigit(t[q]))
    ensures DigitsEnd(t, p) == q
    decreases q - p
  {
    if p < q {
      DigitsTo(t, p + 1, q);
    }
  }

  lemma {:induction false} ExponentIs(t: string, q: nat)
    requires q <= |t|
    ensures ExponentForm(t[q..]) <==> q == |t| || ((t[q] == 'e' || t[q] == 'E') && ExponentText(t, q + 1))
  {
    if q < |t| {
      var start := if q + 1 < |t| && (t[q + 1] == '+' || t[q + 1] == '-') then q + 2 else q + 1;
      var u := t[q..];
      assert (if |u| > 1 && (u[1] == '+' || u[1] == '-') then u[2..] else u[1..]) == t[start..];
      DigitsEndIs(t, start);
      var end := DigitsEnd(t, start);
      if end == |t| {
        assert t[start..end] == t[start..];
      }
      if AllDigits(t[start..]) {
        assert forall i | start <= i < |t| :: t[i] == t[start..][i - start];
        DigitsTo(t, start, |t|);
      }
    }
  }

  /** Where the parts of a floating-point text end. */
  predicate PartEnds(t: string, start: nat, dot: nat, end: nat, point: bool) {
    && start == (if t != [] && (t[0] == '+' || t[0] == '-') then 1 else 0)
    && dot == DigitsEnd(t, start) && point == (dot < |t| && t[dot] == '.')
    && end == if point then DigitsEnd(t, dot + 1) else dot
  }

  lemma {:induction false} FloatByEnds(t: string, start: nat, dot: nat, end: nat, point: bool)
    requires PartEnds(t, start, dot, end, point)
    ensures FloatText(t)
       <==> (&& dot - start + (if point then end - dot - 1 else 0) > 0
             && (end == |t| || ((t[end] == 'e' || t[end] == 'E') && ExponentText(t, end + 1))))
  {
  }

  lemma {:induction false} CutAt(t: string, a: nat, b: nat, e: nat)
    requires a <= b < e <= |t|
    ensures t[a..e] == t[a..b] + ([t[b]] + t[b + 1..e])
  {
  }

  lemma {:induction false} FiguresBetween(t: string, start: nat, dot: nat, end: nat, point: bool)
    requires PartEnds(t, start, dot, end, point)
    ensures Figures(t[start..end], t[start..dot], point, if point then t[dot + 1..end] else [])
  {
    DigitsEndIs(t, start);
    if point {
      DigitsEndIs(t, dot + 1);
      CutAt(t, start, dot, end);
    }
  }

  lemma {:induction false} FloatIsForm(t: string)
    requires FloatText(t)
    ensures FloatForm(t)
  {
    var start := if t != [] && (t[0] == '+' || t[0] == '-') then 1 else 0;
    var dot := DigitsEnd(t, start);
    var point := dot < |t| && t[dot] == '.';
    var end := if point then DigitsEnd(t, dot + 1) else dot;
    FloatByEnds(t, start, dot, end, point);
    FiguresBetween(t, start, dot, end, point);
    ExponentIs(t, end);
    PartsFit(t, start, end, t[start..dot], point, if point then t[dot + 1..end] else []);
  }

  lemma {:induction false} PartsFit(t: string, p: nat, q: nat, a: string, point: bool, b: string)
    requires p <= q <= |t| && Figures(t[p..q], a, point, b) && q == p + |a| + |b| + (if point then 1 else 0)
    requires |a| + |b| > 0 && ExponentForm(t[q..]) && p <= 1 && (p == 1 ==> t[0] == '+' || t[0] == '-')
    ensures FloatForm(t)
  {
    assert FloatParts(t, p, a, point, b);
  }

  lemma {:induction false} FormIsFloat(t: string, p: nat, a: string, point: bool, b: string)
    requires FloatParts(t, p, a, point, b)
    ensures FloatText(t)
  {
    var dot, q := p + |a|, p + |a| + |b| + if point then 1 else 0;
    PartsAt(t, p, q, a, point, b);
    ExponentIs(t, q);
    DigitsTo(t, p, dot);
    if point {
      DigitsTo(t, dot + 1, q);
    }
    FloatByEnds(t, p, dot, q, point);
  }

  /** The characters of the parts, one by one. */
  lemma {:induction false} PartsAt(t: string, p: nat, q: nat, a: string, point: bool, b: string)
    requires p <= q <= |t| && Figures(t[p..q], a, point, b) && q == p + |a| + |b| + (if point then 1 else 0)
    requires a + b != [] && ExponentForm(t[q..])
    ensures forall i | p <= i < p + |a| :: IsDigit(t[i])
    ensures point ==> t[p + |a|] == '.' && forall i | p + |a| < i < q :: IsDigit(t[i])
    ensures t[p] == '.' || IsDigit(t[p])
    ensures q < |t| ==> t[q] == 'e' || t[q] == 'E'
  {
    var u := t[p..q];
    assert forall i | p <= i < q :: t[i] == u[i - p];
    assert forall i | p <= i < p + |a| :: t[i] == a[i - p];
    if point {
      assert forall i | p + |a| < i < q :: t[i] == b[i - p - |a| - 1];
    }
    if q < |t| {
      assert t[q..][0] == t[q];
    }
  }

  lemma {:induction false} FloatIs(t: string)
    ensures FloatText(t) <==> FloatForm(t)
  {
    if FloatText(t) {
      FloatIsForm(t);
    }
    if FloatForm(t) {
      var p: nat, a: string, point: bool, b: string :| FloatParts(t, p, a, point, b);
      FormIsFloat(t, p, a, point, b);
    }
  }

  lemma {:induction false} NumberIs(c: string, p: nat, q: nat, v: Json)
    requires p < |c| && (c[p] == '-' || IsDigit(c[p]))
    ensures ParseNumber(c, p) == Got(v, q) <==> NumberAt(c, p, q, v)
  {
    NumberRunIs(c, p, q);
    var digits := if c[p] == '-' then p + 1 else p;
    var end := NumberEnd(c, digits);
    NumberRunIs(c, p, end);
    var t := c[p..end];
    MarksAre(c, p, digits, end);
    FloatIs(t);
    if v.Int? {
      IntegerIs(t, v.i);
    }
  }

  /** The text of a number has a mark of floating point exactly when it is not an integer's. */
  lemma {:induction false} MarksAre(c: string, p: nat, digits: nat, end: nat)
    requires NumberRun(c, p, end) && digits == (if c[p] == '-' then p + 1 else p)
    ensures var t := c[p..end];
            (exists i | digits <= i < end :: IsFloatMark(c[i])) <==> !(AllDigits(t) || (t[0] == '-' && AllDigits(t[1..])))
  {
    var t := c[p..end];
    assert t[0] == c[p];
    if c[p] == '-' {
      assert forall i | p < i < end :: c[i] == t[1..][i - p - 1];
      assert forall k | 0 <= k < |t[1..]| :: t[1..][k] == c[p + 1 + k];
    } else {
      assert forall i | p <= i < end :: c[i] == t[i - p];
      assert forall k | 0 <= k < |t| :: t[k] == c[p + k];
    }
  }

  // ----- every spelling is read -----

  lemma {:induction false} ValueIsRead(c: string, p: nat, m: nat, q: nat, v: Json)
    requires Blanks(c, p, m) && ValueAt(c, m, q, v)
    ensures p <= |c| && m < |c| && m < q <= |c| && c[m] != ']' && c[m] != '}' && ParseValue(c, p) == Got(v, q)
    decreases v, 3
  {
    BlanksAre(c, p, m);
    match v
    case Null => WordIsRead(c, p, m, q, "null", v);
    case Bool(b) => WordIsRead(c, p, m, q, if b then "true" else "false", v);
    case Int(_) => NumberIs(c, m, q, v);
    case Double(_) => NumberIs(c, m, q, v);
    case Str(s) => StringIsRead(c, m, q, s);
    case Array(items) => ArrayIsRead(c, m, q, items);
    case Object(entries) => ObjectIsRead(c, m, q, entries);
  }

  lemma {:induction false} SameStart(c: string, q: nat)
    requires q < |c|
    ensures StartsWith(c, q, "true") ==> c[q] == 't'
    ensures StartsWith(c, q, "false") ==> c[q] == 'f'
    ensures StartsWith(c, q, "null") ==> c[q] == 'n'
  {
    assert StartsWith(c, q, "true") ==> c[q..q + 4][0] == c[q];
    assert StartsWith(c, q, "false") ==> c[q..q + 5][0] == c[q];
    assert StartsWith(c, q, "null") ==> c[q..q + 4][0] == c[q];
  }

  lemma {:induction false} WordIsRead(c: string, p: nat, m: nat, q: nat, word: string, v: Json)
    requires p <= |c| && SkipWs(c, p) == m && WordAt(c, m, q, word)
    requires (word == "null" && v == Null) || (word == "true" && v == Bool(true)) || (word == "false" && v == Bool(false))
    ensures m < q && c[m] in {'n', 't', 'f'} && ParseValue(c, p) == Got(v, q)
  {
    assert q == m + |word| && c[m] == c[m..q][0] == word[0];
    assert StartsWith(c, m, word);
    SameStart(c, m);
  }

  lemma {:induction false} ArrayIsRead(c: string, p: nat, q: nat, items: seq<Json>)
    requires ValueAt(c, p, q, Array(items))
    ensures p < q <= |c| && ParseArray(c, p) == Got(Array(items), q)
    decreases items, 4
  {
    if items == [] {
      var m: nat :| Blanks(c, p + 1, m) && Has(c, m, ']') && q == m + 1;
      BlanksAre(c, p + 1, m);
    } else {
      ItemsAreRead(c, p + 1, q, items, []);
      ItemsSkip(c, p + 1, []);
      assert [] + items == items;
    }
  }

  lemma {:induction false} ItemsAreRead(c: string, p: nat, q: nat, items: seq<Json>, sofar: seq<Json>)
    requires ItemsAt(c, p, q, items)
    ensures p < q <= |c| && SkipWs(c, p) < |c| && c[SkipWs(c, p)] != ']'
    ensures ParseItems(c, p, sofar) == Got(Array(sofar + items), q)
    decreases items, 3
  {
    if |items| == 1 {
      var e := ItemIsRead(c, p, q - 1, items[0]);
      LastItem(c, p, e, q - 1, items[0], sofar);
      assert items == [items[0]];
    } else {
      var b: nat :| ItemEnds(c, p, b, items[0]) && Has(c, b, ',') && ItemsAt(c, b + 1, q, items[1..]);
      ItemsAreRead(c, b + 1, q, items[1..], sofar + [items[0]]);
      var e := ItemIsRead(c, p, b, items[0]);
      ItemsAfter(c, p, e, b, items[0], sofar);
      Shift(sofar, items);
    }
  }

  /** An item, where it ends and where the comma or the bracket after it stands. */
  lemma {:induction false} ItemIsRead(c: string, p: nat, b: nat, item: Json) returns (e: nat)
    requires ItemEnds(c, p, b, item)
    ensures p < e <= |c| && SkipWs(c, p) < |c| && c[SkipWs(c, p)] != ']'
    ensures ParseValue(c, p) == Got(item, e) && SkipWs(c, e) == b
    decreases item, 6
  {
    var m: nat;
    m, e :| ItemAt(c, p, m, e, b, item);
    BlanksAre(c, p, m);
    ValueIsRead(c, p, m, e, item);
    BlanksAre(c, e, b);
  }

  lemma {:induction false} ItemsAfter(c: string, p: nat, e: nat, b: nat, item: Json, sofar: seq<Json>)
    requires p <= |c| && e <= |c| && ParseValue(c, p) == Got(item, e) && SkipWs(c, e) == b
    ensures ParseItems(c, p, sofar) == if Has(c, b, ',') then ParseItems(c, b + 1, sofar + [item])
                                       else if Has(c, b, ']') then Got(Array(sofar + [item]), b + 1)
                                       else Stuck(ExpectedCommaOrClose)
  {
  }

  lemma {:induction false} ObjectIsRead(c: string, p: nat, q: nat, entries: seq<Entry>)
    requires ValueAt(c, p, q, Object(entries))
    ensures p < q <= |c| && ParseObject(c, p) == Got(Object(entries), q)
    decreases entries, 4
  {
    if entries == [] {
      var m: nat :| Blanks(c, p + 1, m) && Has(c, m, '}') && q == m + 1;
      BlanksAre(c, p + 1, m);
    } else {
      EntriesAreRead(c, p + 1, q, entries, []);
      EntriesSkip(c, p + 1, []);
      assert [] + entries == entries;
    }
  }

  lemma {:induction false} KeyIsRead(c: string, p: nat, m: nat, k: nat, l: nat, key: string)
    requires KeyAt(c, p, m, k, l, key)
    ensures p <= |c| && SkipWs(c, p) < |c| && c[SkipWs(c, p)] == '"' && ParseKey(c, p) == Got(key, l + 1)
  {
    BlanksAre(c, p, m);
    StringIsRead(c, m, k, key);
    BlanksAre(c, k, l);
  }

  lemma {:induction false} EntriesAreRead(c: string, p: nat, q: nat, entries: seq<Entry>, sofar: seq<Entry>)
    requires EntriesAt(c, p, q, entries)
    ensures p < q <= |c| && SkipWs(c, p) < |c| && c[SkipWs(c, p)] != '}'
    ensures ParseEntries(c, p, sofar) == Got(Object(sofar + entries), q)
    decreases entries, 3
  {
    if |entries| == 1 {
      var e := EntryIsRead(c, p, q - 1, entries[0]);
      LastEntry(c, p, e, q - 1, entries[0], sofar);
      assert entries == [entries[0]];
    } else {
      var b: nat :| EntryEnds(c, p, b, entries[0]) && Has(c, b, ',') && EntriesAt(c, b + 1, q, entries[1..]);
      EntriesAreRead(c, b + 1, q, entries[1..], sofar + [entries[0]]);
      var e := EntryIsRead(c, p, b, entries[0]);
      NextEntry(c, p, e, b, entries[0], sofar);
      Shift(sofar, entries);
    }
  }

  /** An entry, where its value ends and where the comma or the brace after it stands. */
  lemma {:induction false} EntryIsRead(c: string, p: nat, b: nat, entry: Entry) returns (e: nat)
    requires EntryEnds(c, p, b, entry)
    ensures p <= |c| && SkipWs(c, p) < |c| && c[SkipWs(c, p)] != '}'
    ensures p < e <= |c| && ParseEntry(c, p) == Got(entry, e) && SkipWs(c, e) == b
    decreases entry, 6
  {
    var l: nat, v: nat;
    l, v, e :| EntryAt(c, p, l, v, e, b, entry);
    KeyEndIsRead(c, p, l, entry.key);
    EntryValueIsRead(c, p, l, v, e, b, entry);
    EntryIs(c, p, l + 1, e, entry);
  }

  lemma {:induction false} KeyEndIsRead(c: string, p: nat, l: nat, key: string)
    requires KeyEnds(c, p, l, key)
    ensures p <= |c| && SkipWs(c, p) < |c| && c[SkipWs(c, p)] == '"' && p < l + 1 <= |c| && ParseKey(c, p) == Got(key, l + 1)
  {
    var m: nat, k: nat :| KeyAt(c, p, m, k, l, key);
    KeyIsRead(c, p, m, k, l, key);
  }

  lemma {:induction false} EntryValueIsRead(c: string, p: nat, l: nat, v: nat, e: nat, b: nat, entry: Entry)
    requires EntryAt(c, p, l, v, e, b, entry)
    ensures l + 1 < e <= |c| && ParseValue(c, l + 1) == Got(entry.value, e) && SkipWs(c, e) == b
    decreases entry, 5
  {
    ValueIsRead(c, l + 1, v, e, entry.value);
    BlanksAre(c, e, b);
  }

  lemma {:induction false} EntryIs(c: string, p: nat, after: nat, e: nat, entry: Entry)
    requires p <= |c| && after <= |c| && ParseKey(c, p) == Got(entry.key, after) && ParseValue(c, after) == Got(entry.value, e)
    ensures ParseEntry(c, p) == Got(entry, e)
  {
  }

  // ----- whatever is read is a spelling -----

  lemma {:induction false} ValueWasRead(c: string, p: nat, r: Parsed<Json>)
    requires p <= |c| && r == ParseValue(c, p) && r.Got?
    ensures Blanks(c, p, SkipWs(c, p)) && ValueAt(c, SkipWs(c, p), r.next, r.value)
    decreases |c| - p, 2
  {
    var m := SkipWs(c, p);
    BlanksAre(c, p, m);
    if c[m] == '{' {
      ObjectWasRead(c, m, r);
    } else if c[m] == '[' {
      ArrayWasRead(c, m, r);
    } else if c[m] == '"' {
      StringWasRead(c, m, r.next, r.value.s);
    } else if c[m] == '-' || IsDigit(c[m]) {
      NumberIs(c, m, r.next, r.value);
    }
  }

  lemma {:induction false} ArrayWasRead(c: string, p: nat, r: Parsed<Json>)
    requires Has(c, p, '[') && r == ParseArray(c, p) && r.Got?
    ensures ValueAt(c, p, r.next, r.value)
    decreases |c| - p, 1
  {
    var m := SkipWs(c, p + 1);
    BlanksAre(c, p + 1, m);
    if !Has(c, m, ']') {
      ItemsSkip(c, p + 1, []);
      var items := ItemsWereRead(c, p + 1, [], r);
      assert [] + items == items;
    }
  }

  lemma {:induction false} ItemsWereRead(c: string, p: nat, sofar: seq<Json>, r: Parsed<Json>) returns (items: seq<Json>)
    requires p <= |c| && r == ParseItems(c, p, sofar) && r.Got?
    ensures r.value == Array(sofar + items) && ItemsAt(c, p, r.next, items)
    decreases |c| - p, 6
  {
    var item, b := ItemWasRead(c, p, sofar, r);
    if c[b] == ',' {
      var rest := ItemsWereRead(c, b + 1, sofar + [item], r);
      items := [item] + rest;
      assert sofar + [item] + rest == sofar + items;
      MoreItems(c, p, b, r.next, item, rest);
    } else {
      items := [item];
    }
  }

  lemma {:induction false} MoreItems(c: string, p: nat, b: nat, q: nat, item: Json, rest: seq<Json>)
    requires ItemEnds(c, p, b, item) && Has(c, b, ',') && ItemsAt(c, b + 1, q, rest)
    ensures ItemsAt(c, p, q, [item] + rest)
  {
    var items := [item] + rest;
    assert items[0] == item && items[1..] == rest;
  }

  /** The first item read, and where the comma or the bracket after it stands. */
  lemma {:induction false} ItemWasRead(c: string, p: nat, sofar: seq<Json>, r: Parsed<Json>) returns (item: Json, b: nat)
    requires p <= |c| && r == ParseItems(c, p, sofar) && r.Got?
    ensures p <= b < |c| && ItemEnds(c, p, b, item)
    ensures if c[b] == ',' then r == ParseItems(c, b + 1, sofar + [item]) else c[b] == ']' && r == Got(Array(sofar + [item]), b + 1)
    decreases |c| - p, 5
  {
    var e := FirstItemGot(c, p, sofar);
    item, b := ParseValue(c, p).value, SkipWs(c, e);
    ItemsAfter(c, p, e, b, item, sofar);
    var m := GivenValueWasRead(c, p, e, item);
    BlanksAre(c, e, b);
    assert ItemAt(c, p, m, e, b, item);
  }

  lemma {:induction false} FirstItemGot(c: string, p: nat, sofar: seq<Json>) returns (e: nat)
    requires p <= |c| && ParseItems(c, p, sofar).Got?
    ensures ParseValue(c, p).Got? && e == ParseValue(c, p).next && p < e <= |c|
  {
    e := ParseValue(c, p).next;
  }

  lemma {:induction false} ObjectWasRead(c: string, p: nat, r: Parsed<Json>)
    requires Has(c, p, '{') && r == ParseObject(c, p) && r.Got?
    ensures ValueAt(c, p, r.next, r.value)
    decreases |c| - p, 1
  {
    var m := SkipWs(c, p + 1);
    BlanksAre(c, p + 1, m);
    if !Has(c, m, '}') {
      EntriesSkip(c, p + 1, []);
      var entries := EntriesWereRead(c, p + 1, [], r);
      assert [] + entries == entries;
    }
  }

  lemma {:induction false} KeyWasRead(c: string, p: nat) returns (l: nat)
    requires p <= |c| && ParseKey(c, p).Got?
    ensures l + 1 == ParseKey(c, p).next && KeyEnds(c, p, l, ParseKey(c, p).value)
  {
    var m := SkipWs(c, p);
    var read := ReadString(c, m);
    BlanksAre(c, p, m);
    StringWasRead(c, m, read.next, read.value);
    l := SkipWs(c, read.next);
    BlanksAre(c, read.next, l);
    assert KeyAt(c, p, m, read.next, l, read.value);
  }

  lemma {:induction false} EntriesWereRead(c: string, p: nat, sofar: seq<Entry>, r: Parsed<Json>) returns (entries: seq<Entry>)
    requires p <= |c| && r == ParseEntries(c, p, sofar) && r.Got?
    ensures r.value == Object(sofar + entries) && EntriesAt(c, p, r.next, entries)
    decreases |c| - p, 6
  {
    var entry, b := HeadWasRead(c, p, sofar, r);
    if c[b] == ',' {
      var rest := EntriesWereRead(c, b + 1, sofar + [entry], r);
      entries := [entry] + rest;
      assert sofar + [entry] + rest == sofar + entries;
      MoreEntries(c, p, b, r.next, entry, rest);
    } else {
      entries := [entry];
    }
  }

  lemma {:induction false} MoreEntries(c: string, p: nat, b: nat, q: nat, entry: Entry, rest: seq<Entry>)
    requires EntryEnds(c, p, b, entry) && Has(c, b, ',') && EntriesAt(c, b + 1, q, rest)
    ensures EntriesAt(c, p, q, [entry] + rest)
  {
    var entries := [entry] + rest;
    assert entries[0] == entry && entries[1..] == rest;
  }

  /** The first entry read, and where the comma or the brace after it stands. */
  lemma {:induction false} HeadWasRead(c: string, p: nat, sofar: seq<Entry>, r: Parsed<Json>) returns (entry: Entry, b: nat)
    requires p <= |c| && r == ParseEntries(c, p, sofar) && r.Got?
    ensures p <= b < |c| && EntryEnds(c, p, b, entry)
    ensures if c[b] == ',' then r == ParseEntries(c, b + 1, sofar + [entry]) else c[b] == '}' && r == Got(Object(sofar + [entry]), b + 1)
    decreases |c| - p, 5
  {
    var e;
    entry, e, b := EntryOf(c, p, sofar, r);
    var after := KeyGot(c, p, entry, e);
    KeyedWasRead(c, p, after, e, b, entry);
  }

  lemma {:induction false} KeyedWasRead(c: string, p: nat, after: nat, e: nat, b: nat, entry: Entry)
    requires p < after <= |c| && ParseKey(c, p) == Got(entry.key, after) && ParseValue(c, after) == Got(entry.value, e)
    requires e <= |c| && b == SkipWs(c, e)
    ensures EntryEnds(c, p, b, entry)
    decreases |c| - p, 4
  {
    var l := KeyWasRead(c, p);
    var v := GivenValueWasRead(c, after, e, entry.value);
    BlanksAre(c, e, b);
    EntryWasRead(c, p, l, v, e, b, entry);
  }

  /** The first entry read, where it ends and where the comma or the brace stands. */
  lemma {:induction false} EntryOf(c: string, p: nat, sofar: seq<Entry>, r: Parsed<Json>) returns (entry: Entry, e: nat, b: nat)
    requires p <= |c| && r == ParseEntries(c, p, sofar) && r.Got?
    ensures p < e <= |c| && ParseEntry(c, p) == Got(entry, e) && b == SkipWs(c, e) && b < |c|
    ensures if c[b] == ',' then r == ParseEntries(c, b + 1, sofar + [entry]) else c[b] == '}' && r == Got(Object(sofar + [entry]), b + 1)
  {
    EntryWasGot(c, p, sofar);
    entry, e := ParseEntry(c, p).value, ParseEntry(c, p).next;
    b := AfterEntry(c, p, sofar, entry, e, r);
  }

  lemma {:induction false} EntryWasGot(c: string, p: nat, sofar: seq<Entry>)
    requires p <= |c| && ParseEntries(c, p, sofar).Got?
    ensures ParseEntry(c, p).Got?
  {
    EntriesAfter(c, p, sofar, ParseEntry(c, p));
  }

  lemma {:induction false} AfterEntry(c: string, p: nat, sofar: seq<Entry>, entry: Entry, e: nat, r: Parsed<Json>) returns (b: nat)
    requires p < e <= |c| && ParseEntry(c, p) == Got(entry, e) && r == ParseEntries(c, p, sofar) && r.Got?
    ensures b == SkipWs(c, e) && b < |c|
    ensures || (c[b] == ',' && r == ParseEntries(c, b + 1, sofar + [entry]))
            || (c[b] == '}' && r == Got(Object(sofar + [entry]), b + 1))
  {
    b := SkipWs(c, e);
    if Has(c, b, ',') {
      NextEntry(c, p, e, b, entry, sofar);
    } else if Has(c, b, '}') {
      LastEntry(c, p, e, b, entry, sofar);
    }
  }

  lemma {:induction false} EntryWasRead(c: string, p: nat, l: nat, v: nat, e: nat, b: nat, entry: Entry)
    requires KeyEnds(c, p, l, entry.key) && Blanks(c, l + 1, v) && ValueAt(c, v, e, entry.value) && Blanks(c, e, b)
    ensures EntryEnds(c, p, b, entry)
  {
    assert EntryAt(c, p, l, v, e, b, entry);
  }

  lemma {:induction false} GivenValueWasRead(c: string, p: nat, q: nat, v: Json) returns (m: nat)
    requires p <= |c| && ParseValue(c, p) == Got(v, q)
    ensures p < q && Blanks(c, p, m) && ValueAt(c, m, q, v)
    decreases |c| - p, 3
  {
    ValueWasRead(c, p, Got(v, q));
    m := SkipWs(c, p);
  }

  lemma {:induction false} KeyGot(c: string, p: nat, entry: Entry, e: nat) returns (after: nat)
    requires p <= |c| && ParseEntry(c, p) == Got(entry, e)
    ensures p < after <= |c| && ParseKey(c, p) == Got(entry.key, after) && ParseValue(c, after) == Got(entry.value, e)
  {
    after := ParseKey(c, p).next;
  }

  // ----- whole documents -----

  /** A text parses to a tree exactly when it is a document of that tree: with any blanks between its
      tokens, any escapes of its characters, and any form of its numbers. */
  lemma {:induction false} ParsesIffDocument(c: string, v: Json)
    ensures ParseText(c) == Ok(v) <==> DocumentIs(c, v)
  {
    var m := SkipWs(c, 0);
    BlanksAre(c, 0, m);
    ValueSkips(c, 0);
    if ParseText(c) == Ok(v) {
      var r := ParseValue(c, 0);
      ValueWasRead(c, 0, r);
      BlanksAre(c, r.next, |c|);
      assert Blanks(c, 0, m) && ValueAt(c, m, r.next, v) && Blanks(c, r.next, |c|);
    }
    if DocumentIs(c, v) {
      var n: nat, e: nat :| Blanks(c, 0, n) && ValueAt(c, n, e, v) && Blanks(c, e, |c|);
      ValueIsRead(c, 0, n, e, v);
      BlanksAre(c, e, |c|);
    }
  }
}
