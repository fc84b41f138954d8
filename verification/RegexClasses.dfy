/** What single tests decide: classes by the characters they list, anchors by lines, boundaries by words. */
module RegexClasses {
  import opened Options
  import opened WhiteSpace
  import opened RegexSyntax
  import opened RegexGrammar
  import opened RegexPattern
  import opened RegexLanguage
  import opened RegexGuard
  import opened RegexExec

  // ----- classes -----

  /** The characters from `lo` to `hi`, one by one. */
  function Listed(lo: int, hi: int): seq<ClassItem>
    requires 0 <= lo && hi < 0x11_0000
    decreases hi - lo
  {
    if lo > hi then []
    else (if 0xD800 <= lo < 0xE000 then [] else [Single(lo as char)]) + Listed(lo + 1, hi)
  }

  ghost predicate Hits(s: Text, items: seq<ClassItem>, c: char) {
    exists i :: 0 <= i < |items| && ItemMatches(s, items[i], c)
  }

  lemma {:induction false} HitsOfTwo(s: Text, a: seq<ClassItem>, b: seq<ClassItem>, c: char)
    ensures Hits(s, a + b, c) <==> Hits(s, a, c) || Hits(s, b, c)
  {
    if Hits(s, a, c) {
      var i :| 0 <= i < |a| && ItemMatches(s, a[i], c);
      assert ItemMatches(s, (a + b)[i], c);
    }
    if Hits(s, b, c) {
      var i :| 0 <= i < |b| && ItemMatches(s, b[i], c);
      assert ItemMatches(s, (a + b)[|a| + i], c);
    }
  }

  lemma {:induction false} InClassIs(s: Text, items: seq<ClassItem>, negated: bool, c: char)
    ensures InClass(s, items, negated, c) <==> Hits(s, items, c) != negated
  {
  }

  lemma {:induction false} HitsOne(s: Text, item: ClassItem, c: char)
    ensures Hits(s, [item], c) <==> ItemMatches(s, item, c)
  {
    assert [item][0] == item;
  }

  lemma {:induction false} ListedHits(s: Text, lo: int, hi: int, c: char)
    requires 0 <= lo && hi < 0x11_0000
    ensures Hits(s, Listed(lo, hi), c) <==> lo <= c as int <= hi
    decreases hi - lo
  {
    if lo <= hi {
      var first := if 0xD800 <= lo < 0xE000 then [] else [Single(lo as char)];
      HitsOfTwo(s, first, Listed(lo + 1, hi), c);
      ListedHits(s, lo + 1, hi, c);
      if first != [] {
        HitsOne(s, Single(lo as char), c);
      }
    }
  }

  /** A range among other items decides what listing its characters would. */
  lemma {:induction false} RangeIsItsCharacters(s: Text, before: seq<ClassItem>, lo: char, hi: char, after: seq<ClassItem>,
                                                negated: bool, c: char)
    ensures InClass(s, before + [Range(lo, hi)] + after, negated, c)
       <==> InClass(s, before + Listed(lo as int, hi as int) + after, negated, c)
  {
    var range, listed := [Range(lo, hi)], Listed(lo as int, hi as int);
    HitsOfTwo(s, before + range, after, c);
    HitsOfTwo(s, before, range, c);
    HitsOfTwo(s, before + listed, after, c);
    HitsOfTwo(s, before, listed, c);
    HitsOne(s, Range(lo, hi), c);
    ListedHits(s, lo as int, hi as int, c);
  }

  /** Every class decides as the class with its ranges written out. */
  function WrittenOut(items: seq<ClassItem>): seq<ClassItem> {
    if items == [] then []
    else (if items[0].Range? then Listed(items[0].lo as int, items[0].hi as int) else [items[0]]) + WrittenOut(items[1..])
  }

  lemma {:induction false} WrittenOutIsTheSame(s: Text, items: seq<ClassItem>, negated: bool, c: char)
    ensures InClass(s, items, negated, c) <==> InClass(s, WrittenOut(items), negated, c)
  {
    WrittenOutHits(s, items, c);
  }

  lemma {:induction false} WrittenOutHits(s: Text, items: seq<ClassItem>, c: char)
    ensures Hits(s, items, c) <==> Hits(s, WrittenOut(items), c)
    decreases |items|
  {
    if items != [] {
      var first, rest := items[0], items[1..];
      assert items == [first] + rest;
      HitsOfTwo(s, [first], rest, c);
      WrittenOutHits(s, rest, c);
      HitsOne(s, first, c);
      if first.Range? {
        var listed := Listed(first.lo as int, first.hi as int);
        HitsOfTwo(s, listed, WrittenOut(rest), c);
        ListedHits(s, first.lo as int, first.hi as int, c);
      } else {
        HitsOfTwo(s, [first], WrittenOut(rest), c);
      }
    }
  }

  /** The shorthands: digits are the range from 0 to 9, words and white space their sets, and the
      capital letters and the mark `^` their complements. */
  lemma {:induction false} ShorthandsAre(s: Text, items: seq<ClassItem>, c: char)
    ensures InClass(s, [Digit(true)], false, c) <==> InClass(s, Listed('0' as int, '9' as int), false, c)
    ensures InClass(s, [Word(true)], false, c) <==> c in s.alphanumeric + {'_'}
    ensures InClass(s, [Space(true)], false, c) <==> c in WHITE_SPACE
    ensures InClass(s, [Digit(false)], false, c) <==> !InClass(s, [Digit(true)], false, c)
    ensures InClass(s, [Word(false)], false, c) <==> !InClass(s, [Word(true)], false, c)
    ensures InClass(s, [Space(false)], false, c) <==> !InClass(s, [Space(true)], false, c)
    ensures InClass(s, items, true, c) <==> !InClass(s, items, false, c)
  {
    SpacesAre(c);
    ListedHits(s, '0' as int, '9' as int, c);
    OneInClass(s, Digit(true), c);
    OneInClass(s, Digit(false), c);
    OneInClass(s, Word(true), c);
    OneInClass(s, Word(false), c);
    OneInClass(s, Space(true), c);
    OneInClass(s, Space(false), c);
    assert InClass(s, Listed('0' as int, '9' as int), false, c) <==> Hits(s, Listed('0' as int, '9' as int), c);
  }

  lemma {:induction false} OneInClass(s: Text, item: ClassItem, c: char)
    ensures InClass(s, [item], false, c) <==> ItemMatches(s, item, c)
  {
    HitsOne(s, item, c);
  }

  // ----- lines and words -----

  /** A line without its line break. */
  ghost predicate Line(s: Text, a: nat, b: nat) {
    && a <= b <= |s.chars| && (forall i | a <= i < b :: s.chars[i] != '\n')
    && (a == 0 || s.chars[a - 1] == '\n') && (b == |s.chars| || s.chars[b] == '\n')
  }

  /** A word: some letters, digits or underscores with none around them. */
  ghost predicate WordRun(s: Text, a: nat, b: nat) {
    && a < b <= |s.chars| && (forall i | a <= i < b :: IsWord(s, s.chars[i]))
    && (a == 0 || !IsWord(s, s.chars[a - 1])) && (b == |s.chars| || !IsWord(s, s.chars[b]))
  }

  lemma {:induction false} LineEnd(s: Text, a: nat) returns (b: nat)
    requires a <= |s.chars|
    ensures a <= b <= |s.chars| && (forall i | a <= i < b :: s.chars[i] != '\n') && (b == |s.chars| || s.chars[b] == '\n')
    decreases |s.chars| - a
  {
    b := a;
    if a < |s.chars| && s.chars[a] != '\n' {
      b := LineEnd(s, a + 1);
    }
  }

  lemma {:induction false} LineStart(s: Text, b: nat) returns (a: nat)
    requires b <= |s.chars|
    ensures a <= b && (forall i | a <= i < b :: s.chars[i] != '\n') && (a == 0 || s.chars[a - 1] == '\n')
    decreases b
  {
    a := b;
    if b > 0 && s.chars[b - 1] != '\n' {
      a := LineStart(s, b - 1);
    }
  }

  lemma {:induction false} WordEnd(s: Text, a: nat) returns (b: nat)
    requires a <= |s.chars|
    ensures a <= b <= |s.chars| && (forall i | a <= i < b :: IsWord(s, s.chars[i])) && (b == |s.chars| || !IsWord(s, s.chars[b]))
    decreases |s.chars| - a
  {
    b := a;
    if a < |s.chars| && IsWord(s, s.chars[a]) {
      b := WordEnd(s, a + 1);
    }
  }

  lemma {:induction false} WordStart(s: Text, b: nat) returns (a: nat)
    requires b <= |s.chars|
    ensures a <= b && (forall i | a <= i < b :: IsWord(s, s.chars[i])) && (a == 0 || !IsWord(s, s.chars[a - 1]))
    decreases b
  {
    a := b;
    if b > 0 && IsWord(s, s.chars[b - 1]) {
      a := WordStart(s, b - 1);
    }
  }

  /** Anchors pass at the starts and ends of lines, boundaries at the edges of words. */
  lemma {:induction false} AnchorsPass(s: Text, pos: nat)
    requires pos <= |s.chars|
    ensures Passes(Start, s, pos) <==> exists b: nat :: Line(s, pos, b)
    ensures Passes(End, s, pos) <==> exists a: nat :: Line(s, a, pos)
  {
    if Passes(Start, s, pos) {
      var b := LineEnd(s, pos);
      assert Line(s, pos, b);
    }
    if Passes(End, s, pos) {
      var a := LineStart(s, pos);
      assert Line(s, a, pos);
    }
  }

  ghost predicate WordEdge(s: Text, pos: nat) {
    (exists b: nat :: WordRun(s, pos, b)) || (exists a: nat :: WordRun(s, a, pos))
  }

  lemma {:induction false} BoundariesPass(s: Text, pos: nat)
    requires pos <= |s.chars|
    ensures Passes(WordBoundary(true), s, pos) <==> WordEdge(s, pos)
    ensures Passes(WordBoundary(false), s, pos) <==> !WordEdge(s, pos)
  {
    var before, after := pos > 0 && IsWord(s, s.chars[pos - 1]), pos < |s.chars| && IsWord(s, s.chars[pos]);
    if after && !before {
      var b := WordEnd(s, pos);
      assert WordRun(s, pos, b);
    }
    if before && !after {
      var a := WordStart(s, pos);
      assert WordRun(s, a, pos);
    }
  }

  // ----- patterns of one test -----

  lemma {:induction false} TestMatches(s: Text, t: Test, pos: nat, saves: Saves)
    requires pos <= |s.chars|
    ensures MatchesAt(s, Atom(t), pos, saves) <==> Passes(t, s, pos)
  {
    var x := Cursor(pos, saves).Record(0);
    if Passes(t, s, pos) {
      assert Derives(s, Atom(t), x, Cursor(pos + Width(t), x.saves));
    }
  }

  /** What a pattern of one test matches, from the pattern's text. */
  ghost predicate PatternMatches(pattern: string, s: Text, pos: nat) {
    && ParsePattern(pattern).Ok?
    && var p := ParsePattern(pattern).value; MatchesAt(s, p.ast, pos, seq(2 * p.groupCount, _ => None))
  }

  lemma {:induction false} AtomIsBody(t: Test)
    ensures IsBody(Atom(t))
  {
    assert IsUnit(Atom(t));
    assert IsItem(Atom(t));
    assert IsBranch(Atom(t));
  }

  lemma {:induction false} TestPattern(t: Test, s: Text, pos: nat)
    requires pos <= |s.chars|
    ensures PatternMatches(ShowTest(t), s, pos) <==> Passes(t, s, pos)
  {
    AtomIsBody(t);
    ShownParses(Atom(t));
    TestMatches(s, t, pos, seq(2, _ => None));
  }

  /** A class in brackets matches a character exactly when it is among those listed, or not when negated. */
  lemma {:induction false} ClassMatchesListed(items: seq<ClassItem>, negated: bool, s: Text, pos: nat)
    requires pos <= |s.chars|
    ensures PatternMatches(ShowTest(Class(items, negated)), s, pos)
       <==> pos < |s.chars| && (Hits(s, WrittenOut(items), s.chars[pos]) != negated)
  {
    TestPattern(Class(items, negated), s, pos);
    if pos < |s.chars| {
      WrittenOutIsTheSame(s, items, negated, s.chars[pos]);
      assert InClass(s, WrittenOut(items), negated, s.chars[pos]) <==> Hits(s, WrittenOut(items), s.chars[pos]) != negated;
    }
  }

  /** A range of two characters matches exactly the characters from the one to the other. */
  lemma {:induction false} RangeMatches(lo: char, hi: char, s: Text, pos: nat)
    requires pos <= |s.chars|
    ensures PatternMatches("[" + ClassLiteral(lo) + "-" + ClassLiteral(hi) + "]", s, pos)
       <==> pos < |s.chars| && lo as int <= s.chars[pos] as int <= hi as int
  {
    RangeText(lo, hi);
    TestPattern(Class([Range(lo, hi)], false), s, pos);
    if pos < |s.chars| {
      RangeDecides(s, lo, hi, s.chars[pos]);
    }
  }

  lemma {:induction false} RangeText(lo: char, hi: char)
    ensures ShowTest(Class([Range(lo, hi)], false)) == "[" + ClassLiteral(lo) + "-" + ClassLiteral(hi) + "]"
  {
    var items := [Range(lo, hi)];
    assert items[1..] == [] && ShowItems(items[1..]) == "";
    assert ShowItems(items) == ClassLiteral(lo) + "-" + ClassLiteral(hi);
  }

  lemma {:induction false} RangeDecides(s: Text, lo: char, hi: char, c: char)
    ensures InClass(s, [Range(lo, hi)], false, c) <==> lo as int <= c as int <= hi as int
  {
    var range, listed := [Range(lo, hi)], Listed(lo as int, hi as int);
    RangeIsItsCharacters(s, [], lo, hi, [], false, c);
    assert [] + range + [] == range && [] + listed + [] == listed;
    ListedHits(s, lo as int, hi as int, c);
    InClassIs(s, listed, false, c);
  }

  /** The dot matches any character but a line break, the anchors the starts and ends of lines, and the
      boundary the edges of words. */
  lemma {:induction false} AnchorsMatch(s: Text, pos: nat)
    requires pos <= |s.chars|
    ensures PatternMatches(".", s, pos) <==> exists a: nat, b: nat :: Line(s, a, b) && a <= pos < b
    ensures PatternMatches("^", s, pos) <==> exists b: nat :: Line(s, pos, b)
    ensures PatternMatches("$", s, pos) <==> exists a: nat :: Line(s, a, pos)
    ensures PatternMatches("\\b", s, pos) <==> WordEdge(s, pos)
    ensures PatternMatches("\\B", s, pos) <==> !WordEdge(s, pos)
  {
    TestPattern(AnyChar, s, pos);
    TestPattern(Start, s, pos);
    TestPattern(End, s, pos);
    TestPattern(WordBoundary(true), s, pos);
    TestPattern(WordBoundary(false), s, pos);
    AnchorsPass(s, pos);
    BoundariesPass(s, pos);
    if Passes(AnyChar, s, pos) {
      var a := LineStart(s, pos);
      var b := LineEnd(s, pos);
      assert Line(s, a, b);
    }
  }
}
