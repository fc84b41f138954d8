/** When a text is refused, what the error names is really in the text. */
module JsonFaults {
  import opened Options
  import opened Digits
  import opened JsonText
  import opened JsonDocument
  import opened JsonGrammar
  import opened JsonReading

  predicate AllBlank(c: string, p: nat, q: nat) {
    p <= q <= |c| && forall i | p <= i < q :: c[i] in BLANKS
  }

  /** Only blanks stand between one of these marks and the place. */
  predicate Follows(c: string, s: nat, p: nat, marks: set<char>) {
    0 < s && AllBlank(c, s, p) && c[s - 1] in marks
  }

  /** A value must stand here: at the start, or after a bracket, a comma or a colon. */
  ghost predicate AwaitsValue(c: string, p: nat) {
    AllBlank(c, 0, p) || exists s: nat :: Follows(c, s, p, {'[', ',', ':'})
  }

  /** A key must stand here. */
  ghost predicate AwaitsKey(c: string, p: nat) {
    exists s: nat :: Follows(c, s, p, {'{', ','})
  }

  /** Past the blanks the value awaited ends too soon, or begins like none. */
  ghost predicate NoValue(c: string, q: nat) {
    AwaitsValue(c, q) && (q < |c| ==> c[q] !in {'{', '[', '"', 't', 'f', 'n', '-'} && !IsDigit(c[q]))
  }

  ghost predicate NoWord(c: string, q: nat) {
    && AwaitsValue(c, q) && q < |c| && c[q] in {'t', 'f', 'n'}
    && forall e: nat :: !WordAt(c, q, e, "true") && !WordAt(c, q, e, "false") && !WordAt(c, q, e, "null")
  }

  /** A run of number characters that is no number. */
  ghost predicate NoNumber(c: string, q: nat, e: nat) {
    AwaitsValue(c, q) && NumberRun(c, q, e) && forall v :: !NumberAt(c, q, e, v)
  }

  ghost predicate NoColon(c: string, p: nat, q: nat, key: string, r: nat) {
    StringAt(c, p, q, key) && Blanks(c, q, r) && !Has(c, r, ':')
  }

  ghost predicate NoComma(c: string, p: nat, q: nat, v: Json, r: nat) {
    ValueAt(c, p, q, v) && Blanks(c, q, r) && !Has(c, r, ',')
  }

  predicate NoEscape(c: string, p: nat) {
    Has(c, p, '\\') && (p + 1 < |c| ==> c[p + 1] !in {'"', '\\', '/', 'n', 't', 'r', 'u'})
  }

  ghost predicate MoreAfter(c: string, m: nat, e: nat, r: nat, v: Json) {
    Blanks(c, 0, m) && ValueAt(c, m, e, v) && Blanks(c, e, r) && r < |c|
  }

  /** What the error names is in the text. */
  ghost predicate Fault(c: string, e: Error) {
    match e
    case UnexpectedToken => exists q: nat :: NoValue(c, q)
    case ExpectedString => exists q: nat :: AwaitsKey(c, q) && !Has(c, q, '"')
    case ExpectedColon => exists p: nat, q: nat, key: string, r: nat :: NoColon(c, p, q, key, r)
    case ExpectedCommaOrClose => exists p: nat, q: nat, v: Json, r: nat :: NoComma(c, p, q, v, r)
    case InvalidEscape => exists p: nat :: NoEscape(c, p)
    case UnterminatedString => '"' in c
    case InvalidLiteral => exists q: nat :: NoWord(c, q)
    case InvalidNumber => exists q: nat, e: nat :: NoNumber(c, q, e) && forall i | q < i < e :: IsDigit(c[i])
    case InvalidFloat => exists q: nat, e: nat :: NoNumber(c, q, e) && exists i | q < i < e :: !IsDigit(c[i])
    case TrailingCharacters => exists m: nat, e: nat, r: nat, v: Json :: MoreAfter(c, m, e, r, v)
  }

  // ----- strings, words and numbers -----

  lemma {:induction false} BodyFault(c: string, p: nat, sofar: string)
    requires p <= |c| && '"' in c && ReadBody(c, p, sofar).Stuck?
    ensures Fault(c, ReadBody(c, p, sofar).error)
    decreases |c| - p
  {
    match ReadPiece(c, p)
    case Read(text, next) => BodyFault(c, next, sofar + text);
    case Bad(e) =>
      if p < |c| {
        assert NoEscape(c, p);
      }
  }

  lemma {:induction false} StringFault(c: string, p: nat)
    requires Has(c, p, '"') && ReadString(c, p).Stuck?
    ensures Fault(c, ReadString(c, p).error)
  {
    assert c[p] in c;
    BodyFault(c, p + 1, []);
  }

  lemma {:induction false} WordFault(c: string, q: nat)
    requires AwaitsValue(c, q) && q < |c| && c[q] in {'t', 'f', 'n'}
    requires !StartsWith(c, q, "true") && !StartsWith(c, q, "false") && !StartsWith(c, q, "null")
    ensures Fault(c, InvalidLiteral)
  {
    forall e: nat
      ensures !WordAt(c, q, e, "true") && !WordAt(c, q, e, "false") && !WordAt(c, q, e, "null")
    {
    }
    assert NoWord(c, q);
  }

  lemma {:induction false} NumberFault(c: string, q: nat)
    requires AwaitsValue(c, q) && q < |c| && (c[q] == '-' || IsDigit(c[q])) && ParseNumber(c, q).Stuck?
    ensures Fault(c, ParseNumber(c, q).error)
  {
    var digits := if c[q] == '-' then q + 1 else q;
    var e := NumberEnd(c, digits);
    NumberRunIs(c, q, e);
    forall v
      ensures !NumberAt(c, q, e, v)
    {
      NumberIs(c, q, e, v);
    }
    assert NoNumber(c, q, e);
    MarksIn(c, q, e);
  }

  lemma {:induction false} MarksIn(c: string, q: nat, e: nat)
    requires NumberRun(c, q, e)
    ensures var digits := if c[q] == '-' then q + 1 else q;
            (exists i | digits <= i < e :: IsFloatMark(c[i])) <==> exists i | q < i < e :: !IsDigit(c[i])
  {
  }

  // ----- the recursion -----

  /** Blanks do not matter to what is awaited. */
  lemma {:induction false} StillAwaits(c: string, p: nat, q: nat)
    requires AwaitsValue(c, p) && AllBlank(c, p, q)
    ensures AwaitsValue(c, q)
  {
    if !AllBlank(c, 0, p) {
      var s: nat :| Follows(c, s, p, {'[', ',', ':'});
      assert Follows(c, s, q, {'[', ',', ':'});
    }
  }

  lemma {:induction false} StillAwaitsKey(c: string, p: nat, q: nat)
    requires AwaitsKey(c, p) && AllBlank(c, p, q)
    ensures AwaitsKey(c, q)
  {
    var s: nat :| Follows(c, s, p, {'{', ','});
    assert Follows(c, s, q, {'{', ','});
  }

  lemma {:induction false} Skipped(c: string, p: nat)
    requires p <= |c|
    ensures AllBlank(c, p, SkipWs(c, p)) && Blanks(c, p, SkipWs(c, p))
  {
    BlanksAre(c, p, SkipWs(c, p));
  }

  lemma {:induction false} ValueFault(c: string, p: nat, e: Error)
    requires p <= |c| && AwaitsValue(c, p) && ParseValue(c, p) == Stuck(e)
    ensures Fault(c, e)
    decreases |c| - p, 2
  {
    var q := SkipWs(c, p);
    Skipped(c, p);
    StillAwaits(c, p, q);
    if q == |c| {
      assert NoValue(c, q);
    } else if c[q] == '{' {
      ObjectFault(c, q, e);
    } else if c[q] == '[' {
      ArrayFault(c, q, e);
    } else if c[q] == '"' {
      StringFault(c, q);
    } else {
      ScalarFault(c, q);
    }
  }

  /** A word, a number or nothing. */
  lemma {:induction false} ScalarFault(c: string, q: nat)
    requires q < |c| && AwaitsValue(c, q) && c[q] !in {'{', '[', '"'} && c[q] !in BLANKS && ParseValue(c, q).Stuck?
    ensures Fault(c, ParseValue(c, q).error)
  {
    assert SkipWs(c, q) == q;
    SameStart(c, q);
    if c[q] in {'t', 'f', 'n'} {
      WordFault(c, q);
    } else if c[q] == '-' || IsDigit(c[q]) {
      NumberFault(c, q);
    } else {
      assert NoValue(c, q);
    }
  }

  lemma {:induction false} ArrayFault(c: string, p: nat, e: Error)
    requires Has(c, p, '[') && ParseArray(c, p) == Stuck(e)
    ensures Fault(c, e)
    decreases |c| - p, 1
  {
    var q := SkipWs(c, p + 1);
    Skipped(c, p + 1);
    assert Follows(c, p + 1, q, {'[', ',', ':'});
    ItemsFault(c, q, [], e);
  }

  lemma {:induction false} ItemsFault(c: string, p: nat, sofar: seq<Json>, e: Error)
    requires p <= |c| && AwaitsValue(c, p) && ParseItems(c, p, sofar) == Stuck(e)
    ensures Fault(c, e)
    decreases |c| - p, 3
  {
    match ParseValue(c, p)
    case Stuck(_) => ValueFault(c, p, e);
    case Got(v, next) =>
      var q := SkipWs(c, next);
      if Has(c, q, ',') {
        assert Follows(c, q + 1, q + 1, {'[', ',', ':'});
        ItemsFault(c, q + 1, sofar + [v], e);
      } else {
        NoCommaAfter(c, p, v, next);
      }
  }

  /** Where a comma or a closing bracket is expected, a value has just ended. */
  lemma {:induction false} NoCommaAfter(c: string, p: nat, v: Json, next: nat)
    requires p <= next <= |c| && ParseValue(c, p) == Got(v, next) && !Has(c, SkipWs(c, next), ',')
    ensures Fault(c, ExpectedCommaOrClose)
  {
    ValueWasRead(c, p, Got(v, next));
    Skipped(c, next);
    assert NoComma(c, SkipWs(c, p), next, v, SkipWs(c, next));
  }

  lemma {:induction false} ObjectFault(c: string, p: nat, e: Error)
    requires Has(c, p, '{') && ParseObject(c, p) == Stuck(e)
    ensures Fault(c, e)
    decreases |c| - p, 1
  {
    var q := SkipWs(c, p + 1);
    Skipped(c, p + 1);
    assert Follows(c, p + 1, q, {'{', ','});
    EntriesFault(c, q, [], e);
  }

  lemma {:induction false} KeyFault(c: string, p: nat, e: Error)
    requires p <= |c| && AwaitsKey(c, p) && ParseKey(c, p) == Stuck(e)
    ensures Fault(c, e)
  {
    var m := SkipWs(c, p);
    Skipped(c, p);
    StillAwaitsKey(c, p, m);
    match ReadString(c, m)
    case Stuck(_) =>
      if Has(c, m, '"') {
        StringFault(c, m);
      }
    case Got(key, next) =>
      StringWasRead(c, m, next, key);
      Skipped(c, next);
      assert NoColon(c, m, next, key, SkipWs(c, next));
  }

  lemma {:induction false} ColonBefore(c: string, p: nat)
    requires p <= |c| && ParseKey(c, p).Got?
    ensures p < ParseKey(c, p).next <= |c| && c[ParseKey(c, p).next - 1] == ':'
  {
  }

  lemma {:induction false} EntryFault(c: string, p: nat, e: Error)
    requires p <= |c| && AwaitsKey(c, p) && ParseEntry(c, p) == Stuck(e)
    ensures Fault(c, e)
    decreases |c| - p, 3
  {
    match ParseKey(c, p)
    case Stuck(_) => KeyFault(c, p, e);
    case Got(key, after) =>
      ColonBefore(c, p);
      assert Follows(c, after, after, {'[', ',', ':'});
      ValueFault(c, after, e);
  }

  lemma {:induction false} EntriesFault(c: string, p: nat, sofar: seq<Entry>, e: Error)
    requires p <= |c| && AwaitsKey(c, p) && ParseEntries(c, p, sofar) == Stuck(e)
    ensures Fault(c, e)
    decreases |c| - p, 4
  {
    match ParseEntry(c, p)
    case Stuck(_) => EntryFault(c, p, e);
    case Got(entry, next) =>
      var q := SkipWs(c, next);
      if Has(c, q, ',') {
        assert Follows(c, q + 1, q + 1, {'{', ','});
        EntriesFault(c, q + 1, sofar + [entry], e);
      } else {
        var after := KeyGot(c, p, entry, next);
        NoCommaAfter(c, after, entry.value, next);
      }
  }

  /** A refused text has the fault its error names. */
  lemma {:induction false} FaultIsReal(c: string)
    requires ParseText(c).Err?
    ensures Fault(c, ParseText(c).error)
  {
    var p := SkipWs(c, 0);
    Skipped(c, 0);
    match ParseValue(c, p)
    case Stuck(e) => ValueFault(c, p, e);
    case Got(v, next) =>
      ValueWasRead(c, p, ParseValue(c, p));
      Skipped(c, next);
      assert SkipWs(c, p) == p;
      assert MoreAfter(c, p, next, SkipWs(c, next), v);
  }
}
