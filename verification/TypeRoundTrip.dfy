/** Parsing a canonical spelling gives the type back, exactly when no arrow stands inside square
    brackets or parentheses. */
module TypeRoundTrip {
  import opened Options
  import opened WhiteSpace
  import opened TypeScan
  import opened TypeSpelling
  import R = TypeRepr

  // ----- splitting a join -----

  function Join(texts: seq<string>, glue: string): string {
    if texts == [] then "" else if |texts| == 1 then texts[0] else texts[0] + glue + Join(texts[1..], glue)
  }

  ghost predicate AllPieces(texts: seq<string>, sep: char) {
    texts != [] ==> Tight(texts[0]) && Over(texts[0], Separator(sep), 0) && AllPieces(texts[1..], sep)
  }

  predicate IsGlue(glue: string, sep: char) {
    (glue == ", " && sep == ',') || (glue == " & " && sep == '&')
  }

  lemma {:induction false} OneHit(c: char, mark: Mark, b: string, at: nat)
    requires Turn(c) == 0 && c != '-'
    ensures Hits([c] + b, mark, 0, at) == (if Stands(c, mark, 0) then [at] else []) + Hits(b, mark, 0, at + 1)
  {
    assert ([c] + b)[1..] == b;
  }

  lemma {:induction false} GlueHits(glue: string, sep: char, b: string, at: nat)
    requires IsGlue(glue, sep)
    ensures Hits(glue + b, Separator(sep), 0, at) == [at + |glue| - 2] + Hits(b, Separator(sep), 0, at + |glue|)
  {
    var mark := Separator(sep);
    var lead: nat := |glue| - 2;
    var blank := " " + b;
    OneHit(' ', mark, b, at + lead + 1);
    OneHit(sep, mark, blank, at + lead);
    assert [] + Hits(b, mark, 0, at + |glue|) == Hits(b, mark, 0, at + |glue|);
    if sep == ',' {
      assert glue + b == [sep] + blank;
    } else {
      OneHit(' ', mark, [sep] + blank, at);
      assert glue + b == " " + ([sep] + blank);
      assert [] + Hits([sep] + blank, mark, 0, at + 1) == Hits([sep] + blank, mark, 0, at + 1);
    }
  }

  lemma {:induction false} JoinHits(x: string, glue: string, rest: string, sep: char, at: nat)
    requires IsGlue(glue, sep) && Over(x, Separator(sep), 0)
    ensures Hits(x + glue + rest, Separator(sep), 0, at)
         == [at + |x| + |glue| - 2] + Hits(rest, Separator(sep), 0, at + |x| + |glue|)
  {
    HitsOfTwo(x, glue + rest, Separator(sep), 0, at);
    assert x + glue + rest == x + (glue + rest);
    GlueHits(glue, sep, rest, at + |x|);
  }

  lemma {:induction false} TrimPadded(before: string, x: string, after: string)
    requires Tight(x) && (before == "" || before == " ") && (after == "" || after == " ")
    ensures Trim(before + x + after) == x
  {
    TightTrims(x);
    assert "" + x + "" == x && "" + x + " " == x + " " && " " + x + "" == " " + x;
  }

  /** The first piece, with a blank before it or not, and one after it or not. */
  lemma {:induction false} TrimPiece(s: string, start: nat, at: nat, x: string, end: nat)
    requires Tight(x) && start <= at <= start + 1 && at + |x| <= end <= at + |x| + 1 && end <= |s|
    requires s[at..at + |x|] == x && (at > start ==> s[start] == ' ') && (end > at + |x| ==> s[at + |x|] == ' ')
    ensures Trim(s[start..end]) == x
  {
    var before, after := s[start..at], s[at + |x|..end];
    assert s[start..end] == before + s[at..at + |x|] + after;
    assert before == "" || before == " ";
    assert after == "" || after == " ";
    TrimPadded(before, x, after);
  }

  ghost predicate Splits(s: string, hits: seq<nat>, start: nat, texts: seq<string>) {
    start <= |s| && Within(hits, start, |s|, 1) && SplitAt(s, hits, start) == texts
  }

  lemma {:induction false} SplitNext(s: string, start: nat, h: nat, later: seq<nat>, x: string, parts: seq<string>)
    requires start <= h < |s| && Trim(s[start..h]) == x && Splits(s, later, h + 1, parts)
    ensures Splits(s, [h] + later, start, [x] + parts)
  {
    assert ([h] + later)[1..] == later;
  }

  lemma {:induction false} SplitLast(s: string, start: nat, at: nat, x: string)
    requires Tight(x) && start <= at <= start + 1 && at <= |s| && s[at..] == x && (at > start ==> s[start] == ' ')
    ensures Splits(s, [], start, [x])
  {
    assert s[at..at + |x|] == x;
    TrimPiece(s, start, at, x, |s|);
    assert s[start..] == s[start..|s|];
  }

  lemma {:induction false} SplitStep(s: string, start: nat, at: nat, x: string, glue: string, rest: string,
                                     sep: char, parts: seq<string>)
    requires IsGlue(glue, sep) && Tight(x) && Over(x, Separator(sep), 0)
    requires start <= at <= start + 1 && at + |x| + |glue| <= |s| && (at > start ==> s[start] == ' ')
    requires s[at..at + |x|] == x && s[at + |x|] == glue[0]
    requires Splits(s, Hits(rest, Separator(sep), 0, at + |x| + |glue|), at + |x| + |glue| - 1, parts)
    ensures Splits(s, Hits(x + glue + rest, Separator(sep), 0, at), start, [x] + parts)
  {
    var h := at + |x| + |glue| - 2;
    JoinHits(x, glue, rest, sep, at);
    TrimPiece(s, start, at, x, h);
    SplitNext(s, start, h, Hits(rest, Separator(sep), 0, h + 2), x, parts);
  }

  lemma {:induction false} SplitJoin(s: string, start: nat, at: nat, texts: seq<string>, glue: string, sep: char)
    requires IsGlue(glue, sep) && texts != [] && AllPieces(texts, sep)
    requires start <= at <= start + 1 && at <= |s| && s[at..] == Join(texts, glue) && (at > start ==> s[start] == ' ')
    ensures Splits(s, Hits(Join(texts, glue), Separator(sep), 0, at), start, texts)
    decreases |texts|
  {
    var x := texts[0];
    if |texts| == 1 {
      assert Hits(x, Separator(sep), 0, at) == [] && texts == [x];
      SplitLast(s, start, at, x);
    } else {
      var rest, next := Join(texts[1..], glue), at + |x| + |glue|;
      Placed(s, at, x, glue, rest);
      SplitJoin(s, next - 1, next, texts[1..], glue, sep);
      SplitStep(s, start, at, x, glue, rest, sep, texts[1..]);
      assert texts == [x] + texts[1..];
    }
  }

  lemma {:induction false} Placed(s: string, at: nat, x: string, glue: string, rest: string)
    requires at <= |s| && s[at..] == x + glue + rest && 2 <= |glue| <= 3
    ensures at + |x| + |glue| <= |s| && s[at..at + |x|] == x && s[at + |x| + |glue|..] == rest
    ensures s[at + |x|] == glue[0] && s[at + |x| + |glue| - 1] == glue[|glue| - 1]
  {
    var t := s[at..];
    assert |t| == |x| + |glue| + |rest|;
    assert t[..|x|] == x && t[|x| + |glue|..] == rest;
    assert t[|x|] == glue[0] && t[|x| + |glue| - 1] == glue[|glue| - 1];
  }

  // ----- lists of types -----

  function Texts(ts: seq<Type>): (r: seq<string>)
    ensures |r| == |ts|
  {
    if ts == [] then [] else [Spell(ts[0])] + Texts(ts[1..])
  }

  function AtomTexts(ts: seq<Type>): (r: seq<string>)
    ensures |r| == |ts|
  {
    if ts == [] then [] else [SpellAtom(ts[0])] + AtomTexts(ts[1..])
  }

  lemma {:induction false} ListIsJoin(ts: seq<Type>)
    ensures SpellList(ts) == Join(Texts(ts), ", ")
    decreases |ts|
  {
    if |ts| > 1 {
      ListIsJoin(ts[1..]);
      assert Texts(ts)[1..] == Texts(ts[1..]);
    }
  }

  lemma {:induction false} MembersIsJoin(ts: seq<Type>)
    ensures SpellMembers(ts) == Join(AtomTexts(ts), " & ")
    decreases |ts|
  {
    if |ts| > 1 {
      MembersIsJoin(ts[1..]);
      assert AtomTexts(ts)[1..] == AtomTexts(ts[1..]);
    }
  }

  lemma {:induction false} ListPieces(ts: seq<Type>)
    requires AllGood(ts)
    ensures AllPieces(Texts(ts), ',')
    decreases |ts|
  {
    if ts != [] {
      SpelledTight(ts[0]);
      SpelledOver(ts[0], Separator(','), 0);
      ListPieces(ts[1..]);
      assert Texts(ts)[1..] == Texts(ts[1..]);
    }
  }

  lemma {:induction false} MemberPieces(ts: seq<Type>)
    requires AllGood(ts) && AllBare(ts)
    ensures AllPieces(AtomTexts(ts), '&')
    decreases |ts|
  {
    if ts != [] {
      SpelledTightAtom(ts[0]);
      SpelledOverAtom(ts[0], Separator('&'), 0);
      MemberPieces(ts[1..]);
      assert AtomTexts(ts)[1..] == AtomTexts(ts[1..]);
    }
  }

  /** A list splits into the texts of its types. */
  lemma {:induction false} ListSplits(ts: seq<Type>)
    requires AllGood(ts) && ts != []
    ensures R.SplitCommas(SpellList(ts)) == Texts(ts) && Trim(SpellList(ts)) != []
  {
    var s := SpellList(ts);
    ListIsJoin(ts);
    ListPieces(ts);
    assert s[0..] == s;
    SplitJoin(s, 0, 0, Texts(ts), ", ", ',');
    SpelledTightList(ts);
    TightTrims(s);
  }

  lemma {:induction false} SpelledTightList(ts: seq<Type>)
    requires AllGood(ts) && ts != []
    ensures Tight(SpellList(ts))
    decreases |ts|
  {
    SpelledTight(ts[0]);
    if |ts| > 1 {
      SpelledTightList(ts[1..]);
      TightTwo(Spell(ts[0]) + ", ", SpellList(ts[1..]));
    }
  }

  lemma {:induction false} MembersSplit(ts: seq<Type>)
    requires AllGood(ts) && AllBare(ts) && |ts| >= 2
    ensures var amps := TopLevel(SpellMembers(ts), '&');
            amps != [] && SplitAt(SpellMembers(ts), amps, 0) == AtomTexts(ts)
  {
    var s, texts := SpellMembers(ts), AtomTexts(ts);
    MembersIsJoin(ts);
    MemberPieces(ts);
    assert s[0..] == s;
    SplitJoin(s, 0, 0, texts, " & ", '&');
    JoinHits(texts[0], " & ", Join(texts[1..], " & "), '&', 0);
  }

  /** The labels, and nothing else, are stripped from the texts of types. */
  lemma {:induction false} LabelsGo(ts: seq<Type>)
    requires AllGood(ts)
    ensures R.StripLabels(Texts(ts)) == Texts(BareAll(ts))
    decreases |ts|
  {
    if ts != [] {
      LabelGoes(ts[0]);
      LabelsGo(ts[1..]);
      assert Texts(ts)[1..] == Texts(ts[1..]) && BareAll(ts)[1..] == BareAll(ts[1..]);
    }
  }

  lemma {:induction false} LabelGoes(t: Type)
    requires Good(t)
    ensures R.StripTupleLabel(Spell(t)) == Spell(Bare(t))
  {
    SpelledTight(Bare(t));
    TightTrims(Spell(Bare(t)));
    if t.Labelled? {
      OverName(t.tag, Separator(':'), 0);
      ColonHit(t.tag, Spell(t.base));
      PairSlices(t.tag, Spell(t.base));
    } else {
      SpelledOver(t, Separator(':'), 0);
    }
  }

  // ----- the parser's cases -----

  lemma {:induction false} EndsWithChar(s: string, c: char)
    ensures R.EndsWith(s, [c]) <==> s != [] && s[|s| - 1] == c
  {
    if s != [] {
      assert s[|s| - 1..] == [s[|s| - 1]];
    }
  }

  lemma {:induction false} EnclosedInner(open: char, s: string, close: char)
    requires IsOpen(open) && IsClose(close)
    ensures DelimitedInner([open] + s + [close], open, close) == if Touches(s, 1) then None else Some(s)
  {
    var t := [open] + s + [close];
    assert t[..|t| - 1] == [open] + s && ([open] + s)[1..] == s;
    assert t[1..|t| - 1] == s;
  }

  /** Nothing of lower precedence stands at the top level. */
  ghost predicate Closed(t: string) {
    Tight(t) && Over(t, Arrow, 0) && Over(t, Separator('&'), 0)
  }

  lemma {:induction false} ClosedSkips(t: string)
    requires Closed(t)
    ensures Trim(t) == t && ArrowPos(t) == None && TopLevel(t, '&') == []
  {
    TightTrims(t);
  }

  lemma {:induction false} EnclosedIsClosed(open: char, s: string, close: char)
    requires (open == '(' && close == ')') || (open == '[' && close == ']')
    requires Over(s, Arrow, 1) && Over(s, Separator('&'), 1)
    ensures Closed([open] + s + [close]) && !R.EndsWith([open] + s + [close], "?") && !R.EndsWith([open] + s + [close], ">")
  {
    var t := [open] + s + [close];
    OverEnclosed(open, s, close, Arrow, 0);
    OverEnclosed(open, s, close, Separator('&'), 0);
    EndsWithChar(t, '?');
    EndsWithChar(t, '>');
  }

  /** Brackets that seem to close early are read as part of a name. */
  lemma {:induction false} FallsBack(open: char, s: string, close: char)
    requires (open == '(' && close == ')') || (open == '[' && close == ']')
    requires Over(s, Arrow, 1) && Over(s, Separator('&'), 1) && Touches(s, 1)
    ensures var t := [open] + s + [close]; R.Parse(t) == R.Repr(t, R.Named(t, []))
  {
    var t := [open] + s + [close];
    EnclosedIsClosed(open, s, close);
    ClosedSkips(t);
    EnclosedInner(open, s, close);
    TightTrims(t);
  }

  lemma {:induction false} BracketCase(s: string, t: string)
    requires Over(s, Arrow, 1) && Over(s, Separator('&'), 1) && !Touches(s, 1) && t == "[" + s + "]"
    ensures R.Parse(t) == R.ParseBracketed(t, s)
  {
    EnclosedIsClosed('[', s, ']');
    ClosedSkips(t);
    EnclosedInner('[', s, ']');
  }

  lemma {:induction false} GroupCase(s: string)
    requires Over(s, Arrow, 1) && Over(s, Separator('&'), 1) && !Touches(s, 1)
    ensures var t := "(" + s + ")"; R.Parse(t) == R.ParseGroup(t, s)
  {
    EnclosedIsClosed('(', s, ')');
    ClosedSkips("(" + s + ")");
    EnclosedInner('(', s, ')');
  }

  lemma {:induction false} OptionalCase(base: string)
    requires Closed(base)
    ensures var t := base + "?"; R.Parse(t) == R.Repr(t, R.Optional(R.Parse(base)))
  {
    var t := base + "?";
    TightTwo(base, "?");
    OverMarked(base, Arrow, 0);
    OverMarked(base, Separator('&'), 0);
    ClosedSkips(t);
    EndsWithChar(t, '?');
    TightTrims(base);
    assert t[..|t| - 1] == base;
  }

  lemma {:induction false} ArrowCase(t: string, at: nat, p: string, ret: string)
    requires Trim(t) == t && ArrowPos(t) == Some(at) && Trim(t[..at]) == p && Trim(t[at + 2..]) == ret
    ensures |p| < |t| && R.Parse(t) == R.Repr(t, R.Function(R.ParseParams(p, |t|), R.Parse(ret)))
  {
  }

  lemma {:induction false} FunctionArrow(params: string, ret: string)
    requires Over(params, Arrow, 1)
    ensures ArrowPos("(" + params + ")" + " -> " + ret) == Some(|params| + 3)
  {
    var p := "(" + params + ")";
    OverEnclosed('(', params, ')', Arrow, 0);
    HitsOfTwo(p, " -> " + ret, Arrow, 0, 0);
    assert p + (" -> " + ret) == p + " -> " + ret;
    ArrowHit(ret, |p|);
    assert Hits(p, Arrow, 0, 0) == [];
  }

  lemma {:induction false} FunctionCase(params: string, ret: string, t: string)
    requires Over(params, Arrow, 1) && Tight(ret) && t == "(" + params + ")" + " -> " + ret
    ensures R.Parse(t) == R.Repr(t, R.Function(R.ParseParams("(" + params + ")", |t|), R.Parse(ret)))
  {
    var p := "(" + params + ")";
    FunctionArrow(params, ret);
    FunctionSlices(p, ret);
    ArrowCase(t, |p| + 1, p, ret);
  }

  lemma {:induction false} FunctionSlices(p: string, ret: string)
    requires Tight(p) && Tight(ret)
    ensures var t := p + " -> " + ret; Trim(t) == t && Trim(t[..|p| + 1]) == p && Trim(t[|p| + 3..]) == ret
  {
    var t := p + " -> " + ret;
    TightTwo(p + " -> ", ret);
    TightTrims(t);
    TightTrims(p);
    TightTrims(ret);
    assert t[..|p| + 1] == p + " ";
    assert t[|p| + 3..] == " " + ret;
  }

  lemma {:induction false} ArrowHit(ret: string, at: nat)
    ensures var hits := Hits(" -> " + ret, Arrow, 0, at); hits != [] && hits[0] == at + 1
  {
    var t := " -> " + ret;
    assert t[1..][0] == '-' && t[1..][1] == '>';
    assert [] + Hits(t[1..], Arrow, 0, at + 1) == Hits(t[1..], Arrow, 0, at + 1);
  }

  lemma {:induction false} CompositionCase(t: string)
    requires Tight(t) && Over(t, Arrow, 0) && TopLevel(t, '&') != []
    ensures R.AllShorter(SplitAt(t, TopLevel(t, '&'), 0), |t|)
    ensures R.Parse(t) == R.Repr(t, R.Composition(R.ParseAll(SplitAt(t, TopLevel(t, '&'), 0), |t|)))
  {
    TightTrims(t);
    R.PartsShorter(t, TopLevel(t, '&'), 0, |t|);
  }

  lemma {:induction false} IndexAfter(a: string, c: char, b: string)
    requires forall i | 0 <= i < |a| :: a[i] != c
    ensures R.IndexOf(a + [c] + b, c) == Some(|a|)
    decreases |a|
  {
    var t := a + [c] + b;
    if a != [] {
      assert t[1..] == a[1..] + [c] + b;
      IndexAfter(a[1..], c, b);
    }
  }

  /** A name does not open with a delimiter. */
  lemma {:induction false} NameCase(t: string)
    requires Closed(t) && Plain(t[0]) && t[|t| - 1] != '?'
    ensures R.Parse(t) == R.ParseNamed(t)
  {
    ClosedSkips(t);
    EndsWithChar(t, '?');
  }

  lemma {:induction false} BareName(name: string)
    requires GoodName(name)
    ensures R.ParseNamed(name) == R.Repr(name, R.Named(name, []))
  {
    TightTrims(name);
    EndsWithChar(name, '>');
  }

  lemma {:induction false} GenericName(name: string, inner: string)
    requires GoodName(name)
    ensures var t := name + "<" + inner + ">"; R.NameOf(t) == name && R.ArgsOf(t) == Some(inner)
  {
    GenericText(name + "<" + inner + ">", name, inner);
    TightTrims(name);
  }

  /** What stands before the first `<`, and between it and the last character. */
  lemma {:induction false} GenericText(t: string, head: string, inner: string)
    requires head != [] && !IsSpace(head[0]) && '<' !in head && t == head + "<" + inner + ">"
    ensures R.NameOf(t) == Trim(head) && R.ArgsOf(t) == Some(inner)
  {
    TightTwo(head + "<" + inner, ">");
    GenericIndex(head, inner);
    GenericParts(t, head, inner);
  }

  lemma {:induction false} GenericIndex(head: string, inner: string)
    requires '<' !in head
    ensures R.IndexOf(head + "<" + inner + ">", '<') == Some(|head|)
  {
    IndexAfter(head, '<', inner + ">");
    assert head + "<" + inner + ">" == head + "<" + (inner + ">");
  }

  lemma {:induction false} GenericParts(t: string, head: string, inner: string)
    requires Tight(t) && t == head + "<" + inner + ">" && R.IndexOf(t, '<') == Some(|head|)
    ensures R.NameOf(t) == Trim(head) && R.ArgsOf(t) == Some(inner)
  {
    TightTrims(t);
    EndsWithChar(t, '>');
    assert t[..|head|] == head && t[|head| + 1..|t| - 1] == inner;
  }

  // ----- one lemma for each kind of type -----

  /** A type whose own normal form is a name keeps a good one, unlike a text in brackets. */
  lemma {:induction false} NamesStayGood(t: Type)
    requires Good(t) && Normal(t).Named?
    ensures GoodName(Normal(t).name)
    decreases t
  {
    if t.Tuple? {
      assert Good(t.items[0]);
      NamesStayGood(t.items[0]);
    } else if t.Labelled? {
      NamesStayGood(t.base);
    }
  }

  lemma {:induction false} NotItsOwnText(t: Type, open: char, s: string, close: char)
    requires Good(t) && IsOpen(open)
    ensures Normal(t) != Named([open] + s + [close], [])
  {
    if Normal(t).Named? {
      NamesStayGood(t);
      assert ([open] + s + [close])[0] == open;
    }
  }

  lemma {:induction false} TouchesMeans(s: string, n: nat)
    requires Falls(s, n)
    ensures Touches(s, 1) <==> n > 0
  {
    assert RawDepth(s, 1) == 1 - n;
    if n > 0 {
      ComingDown(s, 1);
    }
  }

  /** Everything the bracket cases need to know about the text inside. */
  lemma {:induction false} InsideOne(t: Type)
    requires Good(t)
    ensures var s := Spell(t);
            Over(s, Arrow, 1) && Over(s, Separator('&'), 1) && (Touches(s, 1) <==> Arrows(t) > 0)
  {
    SpelledOver(t, Arrow, 1);
    SpelledOver(t, Separator('&'), 1);
    SpelledFalls(t);
    TouchesMeans(Spell(t), Arrows(t));
  }

  lemma {:induction false} InsideList(ts: seq<Type>)
    requires AllGood(ts)
    ensures var s := SpellList(ts);
            Over(s, Arrow, 1) && Over(s, Separator('&'), 1) && (Touches(s, 1) <==> ArrowsIn(ts) > 0)
  {
    SpelledOverList(ts, Arrow, 1);
    SpelledOverList(ts, Separator('&'), 1);
    SpelledListFalls(ts);
    TouchesMeans(SpellList(ts), ArrowsIn(ts));
  }

  lemma {:induction false} InsidePair(key: Type, value: Type)
    requires Good(key) && Good(value)
    ensures var s := Spell(key) + ": " + Spell(value);
            Over(s, Arrow, 1) && Over(s, Separator('&'), 1) && (Touches(s, 1) <==> Arrows(key) + Arrows(value) > 0)
  {
    InsideOne(key);
    InsideOne(value);
    OverGlued(Spell(key), ": ", Spell(value), Arrow, 1);
    OverGlued(Spell(key), ": ", Spell(value), Separator('&'), 1);
    SpelledFalls(key);
    SpelledFalls(value);
    FallsGlued(Spell(key), Arrows(key), ": ", Spell(value), Arrows(value));
    TouchesMeans(Spell(key) + ": " + Spell(value), Arrows(key) + Arrows(value));
  }

  lemma {:induction false} SpelledClosed(t: Type)
    requires Good(t) && !t.Labelled? && !NeedsParens(t)
    ensures Closed(Spell(t))
  {
    SpelledOver(t, Arrow, 0);
    SpelledOver(t, Separator('&'), 0);
    SpelledTight(t);
  }

  lemma {:induction false} SpelledClosedAtom(t: Type)
    requires Good(t) && !t.Labelled?
    ensures Closed(SpellAtom(t))
  {
    SpelledOverAtom(t, Arrow, 0);
    SpelledOverAtom(t, Separator('&'), 0);
    SpelledTightAtom(t);
  }

  ghost predicate Returns(t: Type) {
    ShapeOf(R.Parse(Spell(t))) == Normal(t)
  }

  ghost predicate ReturnsAtom(t: Type) {
    ShapeOf(R.Parse(SpellAtom(t))) == Normal(t)
  }

  lemma {:induction false} RawNameShape(r: R.Repr, v: Type)
    requires r.kind.Named? && !Normal(v).Named?
    ensures ShapeOf(r) != Normal(v)
  {
  }

  lemma {:induction false} ArrayFallsBack(element: Type, t: string)
    requires Good(element) && !element.Labelled? && Arrows(element) > 0 && t == Spell(Array(element))
    ensures R.Parse(t) == R.Repr(t, R.Named(t, []))
  {
    InsideOne(element);
    FallsBack('[', Spell(element), ']');
  }

  lemma {:induction false} ArrayParses(element: Type, s: string, t: string)
    requires Good(element) && !element.Labelled? && Arrows(element) == 0 && s == Spell(element) && t == Spell(Array(element))
    ensures R.Parse(t).kind == R.Array(R.Parse(s))
  {
    InsideOne(element);
    BracketCase(s, t);
    SpelledOver(element, Separator(':'), 0);
    SpelledTight(element);
    TightTrims(s);
  }

  lemma {:induction false} ArrayShape(r: R.Repr, e: R.Repr, element: Type)
    requires r.kind == R.Array(e) && ShapeOf(e) == Normal(element)
    ensures ShapeOf(r) == Normal(Array(element))
  {
  }

  lemma {:induction false} ArrayReturns(element: Type)
    requires Good(element) && !element.Labelled? && (Arrows(element) == 0 ==> Returns(element))
    ensures Returns(Array(element)) <==> Arrows(element) == 0
  {
    var s, t := Spell(element), Spell(Array(element));
    if Arrows(element) > 0 {
      ArrayFallsBack(element, t);
      RawNameShape(R.Parse(t), Array(element));
    } else {
      ArrayParses(element, s, t);
      ArrayShape(R.Parse(t), R.Parse(s), element);
    }
  }

  lemma {:induction false} DictionaryParses(key: Type, value: Type, k: string, v: string, t: string)
    requires Good(Dictionary(key, value)) && Arrows(key) + Arrows(value) == 0 && k == Spell(key) && v == Spell(value)
    requires t == Spell(Dictionary(key, value))
    ensures R.Parse(t).kind == R.Dictionary(R.Parse(k), R.Parse(v))
  {
    InsidePair(key, value);
    SpelledOver(key, Separator(':'), 0);
    SpelledTight(key);
    SpelledTight(value);
    PairParses(k, v, t);
  }

  lemma {:induction false} PairParses(k: string, v: string, t: string)
    requires Over(k, Separator(':'), 0) && Tight(k) && Tight(v)
    requires var s := k + ": " + v; Over(s, Arrow, 1) && Over(s, Separator('&'), 1) && !Touches(s, 1)
    requires t == "[" + (k + ": " + v) + "]"
    ensures R.Parse(t) == R.Repr(t, R.Dictionary(R.Parse(k), R.Parse(v)))
  {
    BracketCase(k + ": " + v, t);
    PairCase(t, k, v);
  }

  lemma {:induction false} DictionaryShape(r: R.Repr, k: R.Repr, v: R.Repr, key: Type, value: Type)
    requires r.kind == R.Dictionary(k, v) && ShapeOf(k) == Normal(key) && ShapeOf(v) == Normal(value)
    ensures ShapeOf(r) == Normal(Dictionary(key, value))
  {
  }

  lemma {:induction false} DictionaryFallsBack(key: Type, value: Type)
    requires Good(Dictionary(key, value)) && Arrows(key) + Arrows(value) > 0
    ensures !Returns(Dictionary(key, value))
  {
    InsidePair(key, value);
    FallsBack('[', Spell(key) + ": " + Spell(value), ']');
    RawNameShape(R.Parse(Spell(Dictionary(key, value))), Dictionary(key, value));
  }

  lemma {:induction false} DictionaryReturns(key: Type, value: Type)
    requires Good(Dictionary(key, value)) && Arrows(key) + Arrows(value) == 0
    requires Returns(key) && Returns(value)
    ensures Returns(Dictionary(key, value))
  {
    var k, v, t := Spell(key), Spell(value), Spell(Dictionary(key, value));
    DictionaryParses(key, value, k, v, t);
    DictionaryShape(R.Parse(t), R.Parse(k), R.Parse(v), key, value);
  }

  lemma {:induction false} PairCase(t: string, k: string, v: string)
    requires Over(k, Separator(':'), 0) && Tight(k) && Tight(v) && |k + ": " + v| < |t|
    ensures R.ParseBracketed(t, k + ": " + v) == R.Repr(t, R.Dictionary(R.Parse(k), R.Parse(v)))
  {
    var s := k + ": " + v;
    ColonHit(k, v);
    PairSlices(k, v);
  }

  lemma {:induction false} HitAfter(k: string, c: char, rest: string)
    requires Over(k, Separator(c), 0) && Turn(c) == 0 && c != '-'
    ensures var hits := TopLevel(k + ([c] + rest), c); hits != [] && hits[0] == |k|
  {
    HitsOfTwo(k, [c] + rest, Separator(c), 0, 0);
    OneHit(c, Separator(c), rest, |k|);
    assert Hits(k, Separator(c), 0, 0) == [];
  }

  lemma {:induction false} ColonHit(k: string, v: string)
    requires Over(k, Separator(':'), 0)
    ensures var colons := TopLevel(k + ": " + v, ':'); colons != [] && colons[0] == |k|
  {
    HitAfter(k, ':', " " + v);
    assert k + ": " + v == k + ([':'] + (" " + v));
  }

  lemma {:induction false} PairSlices(k: string, v: string)
    requires Tight(k) && Tight(v)
    ensures var s := k + ": " + v; Trim(s[..|k|]) == k && Trim(s[|k| + 1..]) == v
  {
    var s := k + ": " + v;
    TightTrims(k);
    TightTrims(v);
    assert s[..|k|] == k && s[|k| + 1..] == " " + v;
  }

  /** One type in parentheses. */
  lemma {:induction false} GroupReturns(t: Type)
    requires Good(t) && (Arrows(t) == 0 ==> Returns(Bare(t)))
    ensures ShapeOf(R.Parse("(" + Spell(t) + ")")) == Normal(t) <==> Arrows(t) == 0
  {
    var s := Spell(t);
    InsideOne(t);
    if Arrows(t) > 0 {
      FallsBack('(', s, ')');
      NotItsOwnText(t, '(', s, ')');
    } else {
      GroupCase(s);
      ListSplits([t]);
      LabelGoes(t);
      assert [t][1..] == [] && Texts([t]) == [s];
    }
  }

  lemma {:induction false} ParamsReturn(params: seq<Type>, bound: nat)
    requires AllGood(params) && |SpellList(params)| + 2 < bound
    requires R.AllShorter(Texts(BareAll(params)), bound)
    requires ArrowsIn(params) == 0 ==> ShapesOf(R.ParseAll(Texts(BareAll(params)), bound)) == NormalAll(params)
    ensures ShapesOf(R.ParseParams("(" + SpellList(params) + ")", bound)) == NormalAll(params) <==> ArrowsIn(params) == 0
  {
    var s := SpellList(params);
    InsideList(params);
    EnclosedInner('(', s, ')');
    if ArrowsIn(params) > 0 {
      FallsBack('(', s, ')');
      assert ShapesOf([R.Parse("(" + s + ")")]) == [Named("(" + s + ")", [])];
      if |params| == 1 {
        NotItsOwnText(params[0], '(', s, ')');
        assert NormalAll(params)[0] == Normal(params[0]);
      }
    } else if params != [] {
      ListSplits(params);
      LabelsGo(params);
    }
  }

  lemma {:induction false} OptionalShape(r: R.Repr, b: R.Repr, base: Type)
    requires r.kind == R.Optional(b)
    ensures ShapeOf(r) == Normal(Optional(base)) <==> ShapeOf(b) == Normal(base)
  {
  }

  lemma {:induction false} OptionalReturns(base: Type)
    requires Good(base) && !base.Labelled?
    ensures Returns(Optional(base)) <==> ReturnsAtom(base)
  {
    SpelledClosedAtom(base);
    OptionalCase(SpellAtom(base));
    OptionalShape(R.Parse(Spell(Optional(base))), R.Parse(SpellAtom(base)), base);
  }

  // ----- names -----

  /** What parsing a list of texts must give, their labels stripped. */
  ghost predicate ListReturns(ts: seq<Type>, bound: nat) {
    R.AllShorter(Texts(BareAll(ts)), bound) && ShapesOf(R.ParseAll(Texts(BareAll(ts)), bound)) == NormalAll(ts)
  }

  lemma {:induction false} BareIsItself(ts: seq<Type>)
    requires AllBare(ts)
    ensures BareAll(ts) == ts
    decreases |ts|
  {
    if ts != [] {
      BareIsItself(ts[1..]);
    }
  }

  lemma {:induction false} TextsShorter(ts: seq<Type>, bound: nat)
    requires |SpellList(ts)| < bound
    ensures R.AllShorter(Texts(BareAll(ts)), bound)
    decreases |ts|
  {
    if ts != [] {
      assert |SpellList(ts)| >= |Spell(ts[0])| >= |Spell(Bare(ts[0]))|;
      if |ts| > 1 {
        TextsShorter(ts[1..], bound);
      }
      assert BareAll(ts)[1..] == BareAll(ts[1..]) && Texts(BareAll(ts))[1..] == Texts(BareAll(ts[1..]));
    }
  }

  lemma {:induction false} OptionalNameIs(name: string)
    ensures R.IsOptionalName(name) <==> OptionalName(name)
  {
    if R.EndsWith(name, ".Optional") {
      assert name[|name| - 9..] == ".Optional";
    }
    forall k | 0 <= k <= |name| && name[k..] == ".Optional"
      ensures R.EndsWith(name, ".Optional")
    {
      assert k == |name| - 9;
    }
  }

  lemma {:induction false} NamedShape(r: R.Repr, parsed: seq<R.Repr>, name: string, args: seq<Type>)
    requires |parsed| == |args|
    requires r.kind == if |parsed| == 1 && R.IsOptionalName(name) then R.Optional(parsed[0]) else R.Named(name, parsed)
    ensures ShapeOf(r) == Normal(Named(name, args)) <==> ShapesOf(parsed) == NormalAll(args)
  {
    OptionalNameIs(name);
    if |parsed| == 1 {
      assert ShapesOf(parsed) == [ShapeOf(parsed[0])];
      assert NormalAll(args) == [Normal(args[0])];
    }
  }

  lemma {:induction false} BareNameReturns(name: string)
    requires GoodName(name)
    ensures Returns(Named(name, []))
  {
    SpelledClosed(Named(name, []));
    NameCase(name);
    BareName(name);
    NamedShape(R.Parse(name), [], name, []);
  }

  lemma {:induction false} NamedParses(t: string, name: string, inner: string, texts: seq<string>, bound: nat)
    requires R.NameOf(t) == name && R.ArgsOf(t) == Some(inner) && R.SplitCommas(inner) == texts && bound == |t|
    ensures R.AllShorter(texts, bound)
    ensures R.ParseNamed(t).kind == (var parsed := R.ParseAll(texts, bound);
                                     if |parsed| == 1 && R.IsOptionalName(name) then R.Optional(parsed[0]) else R.Named(name, parsed))
  {
    R.CommasShorter(inner, bound);
  }

  lemma {:induction false} NamedReturns(name: string, args: seq<Type>)
    requires GoodName(name) && AllGood(args) && AllBare(args) && args != []
    ensures var t := Named(name, args); Returns(t) <==> ListReturns(args, |Spell(t)|)
  {
    var t := Spell(Named(name, args));
    SpelledClosed(Named(name, args));
    SpelledTight(Named(name, args));
    NameCase(t);
    GenericName(name, SpellList(args));
    ListSplits(args);
    BareIsItself(args);
    NamedParses(t, name, SpellList(args), Texts(args), |t|);
    NamedShape(R.Parse(t), R.ParseAll(Texts(args), |t|), name, args);
  }

  // ----- tuples, functions, compositions -----

  lemma {:induction false} TupleShape(r: R.Repr, parsed: seq<R.Repr>, items: seq<Type>)
    requires r.kind == R.Tuple(parsed) && |items| != 1
    ensures ShapeOf(r) == Normal(Tuple(items)) <==> ShapesOf(parsed) == NormalAll(items)
  {
  }

  lemma {:induction false} TupleParses(items: seq<Type>, t: string)
    requires AllGood(items) && |items| != 1 && ArrowsIn(items) == 0 && t == "(" + SpellList(items) + ")"
    requires R.AllShorter(Texts(BareAll(items)), |t|)
    ensures R.Parse(t).kind == R.Tuple(R.ParseAll(Texts(BareAll(items)), |t|))
  {
    InsideList(items);
    GroupCase(SpellList(items));
    if items != [] {
      ListSplits(items);
      LabelsGo(items);
    }
  }

  lemma {:induction false} TupleFallsBack(items: seq<Type>, t: string)
    requires AllGood(items) && ArrowsIn(items) > 0 && t == Spell(Tuple(items))
    ensures R.Parse(t) == R.Repr(t, R.Named(t, []))
  {
    var s := SpellList(items);
    assert t == "(" + s + ")";
    InsideList(items);
    FallsBack('(', s, ')');
  }

  lemma {:induction false} TupleReturns(items: seq<Type>)
    requires AllGood(items) && |items| != 1
    requires ArrowsIn(items) == 0 ==> ListReturns(items, |Spell(Tuple(items))|)
    ensures Returns(Tuple(items)) <==> ArrowsIn(items) == 0
  {
    var t := Spell(Tuple(items));
    if ArrowsIn(items) > 0 {
      TupleFallsBack(items, t);
      RawNameShape(R.Parse(t), Tuple(items));
    } else {
      TupleParses(items, t);
      TupleShape(R.Parse(t), R.ParseAll(Texts(BareAll(items)), |t|), items);
    }
  }

  lemma {:induction false} FunctionShape(r: R.Repr, ps: seq<R.Repr>, q: R.Repr, params: seq<Type>, ret: Type)
    requires r.kind == R.Function(ps, q)
    ensures ShapeOf(r) == Normal(Function(params, ret)) <==> ShapesOf(ps) == NormalAll(params) && ShapeOf(q) == Normal(ret)
  {
  }

  lemma {:induction false} FunctionReturns(params: seq<Type>, ret: Type)
    requires AllGood(params) && Good(ret) && !ret.Labelled?
    requires ArrowsIn(params) == 0 ==> ListReturns(params, |Spell(Function(params, ret))|)
    ensures Returns(Function(params, ret)) <==> ArrowsIn(params) == 0 && Returns(ret)
  {
    var p, q, t := SpellList(params), Spell(ret), Spell(Function(params, ret));
    FunctionParses(params, ret, p, q, t);
    TextsShorter(params, |t|);
    ParamsReturn(params, |t|);
    FunctionShape(R.Parse(t), R.ParseParams("(" + p + ")", |t|), R.Parse(q), params, ret);
  }

  lemma {:induction false} FunctionParses(params: seq<Type>, ret: Type, p: string, q: string, t: string)
    requires AllGood(params) && Good(ret) && p == SpellList(params) && q == Spell(ret) && t == Spell(Function(params, ret))
    ensures |p| + 2 < |t| && R.Parse(t).kind == R.Function(R.ParseParams("(" + p + ")", |t|), R.Parse(q))
  {
    SpelledOverList(params, Arrow, 1);
    SpelledTight(ret);
    FunctionCase(p, q, t);
  }

  ghost predicate AtomsReturn(ts: seq<Type>, bound: nat) {
    R.AllShorter(AtomTexts(ts), bound) && ShapesOf(R.ParseAll(AtomTexts(ts), bound)) == NormalAll(ts)
  }

  lemma {:induction false} CompositionShape(r: R.Repr, ms: seq<R.Repr>, members: seq<Type>)
    requires r.kind == R.Composition(ms)
    ensures ShapeOf(r) == Normal(Composition(members)) <==> ShapesOf(ms) == NormalAll(members)
  {
  }

  lemma {:induction false} CompositionReturns(members: seq<Type>)
    requires Good(Composition(members))
    ensures Returns(Composition(members)) <==> AtomsReturn(members, |SpellMembers(members)|)
  {
    var t := Spell(Composition(members));
    CompositionParses(members, t);
    CompositionShape(R.Parse(t), R.ParseAll(AtomTexts(members), |t|), members);
  }

  lemma {:induction false} CompositionParses(members: seq<Type>, t: string)
    requires Good(Composition(members)) && t == SpellMembers(members)
    ensures R.AllShorter(AtomTexts(members), |t|)
    ensures R.Parse(t).kind == R.Composition(R.ParseAll(AtomTexts(members), |t|))
  {
    SpelledTightMembers(members);
    SpelledOverMembers(members, Arrow, 0);
    MembersSplit(members);
    CompositionCase(t);
  }

  // ----- the theorem -----

  /** Parsing the spelling of a type, with labels in its tuples and parameter lists, gives that type
      without the labels, exactly when the spelling has no arrow inside square brackets or parentheses. */
  lemma {:induction false} RoundTrip(t: Type)
    requires Good(t) && !t.Labelled?
    ensures Returns(t) <==> Safe(t)
    decreases t, 0
  {
    NoArrowsIsSafe(t);
    match t
    case Named(name, args) =>
      if args == [] {
        BareNameReturns(name);
      } else {
        TextsShorter(args, |Spell(t)|);
        ListRoundTrip(args, |Spell(t)|);
        NamedReturns(name, args);
      }
    case Optional(base) =>
      AtomRoundTrip(base);
      OptionalReturns(base);
    case Array(element) =>
      RoundTrip(element);
      NoArrowsIsSafe(element);
      ArrayReturns(element);
    case Dictionary(key, value) =>
      RoundTrip(key);
      RoundTrip(value);
      NoArrowsIsSafe(key);
      NoArrowsIsSafe(value);
      if Arrows(key) + Arrows(value) > 0 {
        DictionaryFallsBack(key, value);
      } else {
        DictionaryReturns(key, value);
      }
    case Tuple(items) =>
      NoArrowsAllSafe(items);
      if |items| == 1 {
        assert AllGood(items) && Good(items[0]);
        RoundTrip(Bare(items[0]));
        NoArrowsIsSafe(items[0]);
        GroupReturns(items[0]);
      } else {
        TextsShorter(items, |Spell(t)|);
        ListRoundTrip(items, |Spell(t)|);
        TupleReturns(items);
      }
    case Function(params, ret) =>
      NoArrowsAllSafe(params);
      TextsShorter(params, |Spell(t)|);
      ListRoundTrip(params, |Spell(t)|);
      RoundTrip(ret);
      FunctionReturns(params, ret);
    case Composition(members) =>
      MembersSplit(members);
      R.PartsShorter(SpellMembers(members), TopLevel(SpellMembers(members), '&'), 0, |SpellMembers(members)|);
      AtomsRoundTrip(members, |SpellMembers(members)|);
      CompositionReturns(members);
  }

  lemma {:induction false} AtomRoundTrip(t: Type)
    requires Good(t) && !t.Labelled?
    ensures ReturnsAtom(t) <==> SafeAtom(t)
    decreases t, 1
  {
    RoundTrip(t);
    NoArrowsIsSafe(t);
    if NeedsParens(t) {
      GroupReturns(t);
    }
  }

  lemma {:induction false} ListRoundTrip(ts: seq<Type>, bound: nat)
    requires AllGood(ts) && R.AllShorter(Texts(BareAll(ts)), bound)
    ensures ListReturns(ts, bound) <==> AllSafe(ts)
    decreases ts, 0
  {
    if ts != [] {
      var first, texts := Bare(ts[0]), Texts(BareAll(ts));
      assert BareAll(ts)[1..] == BareAll(ts[1..]) && texts[1..] == Texts(BareAll(ts[1..]));
      RoundTrip(first);
      ListRoundTrip(ts[1..], bound);
      ConsShapes(R.ParseAll(texts, bound), R.Parse(Spell(first)), R.ParseAll(texts[1..], bound), ts);
    }
  }

  lemma {:induction false} AtomsRoundTrip(ts: seq<Type>, bound: nat)
    requires AllGood(ts) && AllBare(ts) && R.AllShorter(AtomTexts(ts), bound)
    ensures AtomsReturn(ts, bound) <==> AllSafeAtoms(ts)
    decreases ts, 0
  {
    if ts != [] {
      assert AtomTexts(ts)[1..] == AtomTexts(ts[1..]);
      AtomRoundTrip(ts[0]);
      AtomsRoundTrip(ts[1..], bound);
      ConsShapes(R.ParseAll(AtomTexts(ts), bound), R.Parse(SpellAtom(ts[0])), R.ParseAll(AtomTexts(ts[1..]), bound), ts);
    }
  }

  lemma {:induction false} ConsShapes(rs: seq<R.Repr>, first: R.Repr, rest: seq<R.Repr>, ts: seq<Type>)
    requires rs == [first] + rest && |ts| == |rs|
    ensures ShapesOf(rs) == NormalAll(ts) <==> ShapeOf(first) == Normal(ts[0]) && ShapesOf(rest) == NormalAll(ts[1..])
  {
    assert rs[1..] == rest;
    var a, b := ShapesOf(rs), NormalAll(ts);
    assert a[0] == ShapeOf(first) && a[1..] == ShapesOf(rest) && b[0] == Normal(ts[0]) && b[1..] == NormalAll(ts[1..]);
    assert a == [a[0]] + a[1..] && b == [b[0]] + b[1..];
  }

  // ----- blanks and texts -----

  lemma {:induction false} ParseTrims(s: string, t: string)
    requires Trim(s) == t && Trim(t) == t
    ensures R.Parse(s) == R.Parse(t)
  {
  }

  /** White space around a spelling makes no difference. */
  lemma {:induction false} SpacesAround(before: string, t: string, after: string)
    requires AllSpace(before) && AllSpace(after) && Tight(t)
    ensures R.Parse(before + t + after) == R.Parse(t)
  {
    TrimSkips(before, t, after);
    TightTrims(t);
    ParseTrims(before + t + after, t);
  }

  /** White space between a generic name and its arguments makes no difference to the shape. */
  lemma {:induction false} SpacedGeneric(name: string, gap: string, inner: string)
    requires GoodName(name) && AllSpace(gap) && AllPlain(gap)
    ensures R.ParseNamed(name + gap + "<" + inner + ">").kind == R.ParseNamed(name + "<" + inner + ">").kind
  {
    var s, t := name + gap + "<" + inner + ">", name + "<" + inner + ">";
    var parts := R.SplitCommas(inner);
    GenericName(name, inner);
    SpacedName(name, gap, inner, s);
    NamedParses(s, name, inner, parts, |s|);
    NamedParses(t, name, inner, parts, |t|);
    SameParts(parts, |s|, |t|);
  }

  lemma {:induction false} SpacedName(name: string, gap: string, inner: string, s: string)
    requires GoodName(name) && AllSpace(gap) && AllPlain(gap) && s == name + gap + "<" + inner + ">"
    ensures R.NameOf(s) == name && R.ArgsOf(s) == Some(inner)
  {
    GenericText(s, name + gap, inner);
    TrimSkips("", name, gap);
    assert "" + name + gap == name + gap;
    TightTrims(name);
  }

  predicate AllPlain(s: string) {
    forall i | 0 <= i < |s| :: Plain(s[i])
  }

  /** The bound of a list only serves termination. */
  lemma {:induction false} SameParts(parts: seq<string>, bound: nat, other: nat)
    requires R.AllShorter(parts, bound) && R.AllShorter(parts, other)
    ensures R.ParseAll(parts, bound) == R.ParseAll(parts, other)
    decreases |parts|
  {
    if parts != [] {
      SameParts(parts[1..], bound, other);
    }
  }

  /** The shortest family of spellings that are lost: an array of functions is read as a name. */
  lemma {:induction false} ArrayOfFunctions(a: string, b: string)
    requires GoodName(a) && GoodName(b)
    ensures var t := Array(Function([Named(a, [])], Named(b, [])));
            Good(t) && !Safe(t) && R.Parse(Spell(t)) == R.Repr(Spell(t), R.Named(Spell(t), []))
  {
    var x, y := Named(a, []), Named(b, []);
    var f := Function([x], y);
    assert [x][1..] == [] && Good(x) && Good(y) && AllGood([x]);
    assert ArrowsIn([]) == 0 && Arrows(x) == 0;
    assert ArrowsIn([x]) == 0;
    ArrayFallsBack(f, Spell(Array(f)));
  }
}
