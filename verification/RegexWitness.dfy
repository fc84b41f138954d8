/** Patterns, as they are written, that show where searching does not do what one might expect. */
module RegexWitness {
  import opened Options
  import opened RegexSyntax
  import opened RegexGrammar
  import opened RegexProgram
  import opened RegexCompiler
  import opened RegexExec
  import opened RegexLanguage
  import opened RegexGuard
  import opened RegexOrdered
  import opened RegexSearch
  import opened RegexLimits
  import opened RegexLazy
  import opened RegexLaterLoop
  import P = RegexPattern

  const A := Atom(Char('a'))
  const B := Atom(Char('b'))
  const C := Atom(Char('c'))

  // ----- the patterns parse -----

  /** A character that is a literal in a pattern. */
  predicate Literal(ch: char) {
    ch !in {'(', ')', '[', '.', '^', '$', '\\', '*', '+', '?', '{', '|'}
  }

  /** A literal with no quantifier after it. */
  lemma {:induction false} LiteralParses(c: string, p: nat, g: nat, sofar: seq<Node>)
    requires p < |c| && Literal(c[p]) && (p + 1 == |c| || c[p + 1] !in {'*', '+', '?', '{'})
    ensures ParseNodes(c, p, g, sofar) == ParseNodes(c, p + 1, g, sofar + [Atom(Char(c[p]))])
  {
    assert ParseAtom(c, p, g) == Got(Atom(Char(c[p])), p + 1, g);
    assert ParseRepeat(c, p, g) == Got(Atom(Char(c[p])), p + 1, g);
  }

  lemma {:induction false} NodesEnd(c: string, p: nat, g: nat, sofar: seq<Node>)
    requires p <= |c| && (p == |c| || c[p] == '|' || c[p] == ')')
    ensures ParseNodes(c, p, g, sofar) == Got(Joined(sofar), p, g)
  {
  }

  /** A group with the quantifier `*?` after it. */
  lemma {:induction false} LazyGroupParses(c: string, p: nat, g: nat, inner: Parsed, index: Option<nat>, sofar: seq<Node>)
    requires Has(c, p, '(') && inner.Got? && Has(c, inner.next, ')') && Has(c, inner.next + 1, '*') && Has(c, inner.next + 2, '?')
    requires ParseGroup(c, p, g) == CloseGroup(c, index, inner)
    ensures inner.next + 3 <= |c|
    ensures ParseNodes(c, p, g, sofar)
         == ParseNodes(c, inner.next + 3, inner.groups, sofar + [Repeat(Group(index, inner.node), 0, None, false)])
  {
    var group := Group(index, inner.node);
    assert ParseAtom(c, p, g) == Got(group, inner.next + 1, inner.groups);
    assert ParseRepeat(c, p, g) == Got(Repeat(group, 0, None, false), inner.next + 3, inner.groups);
  }

  const EMPTY_LOOP := "()*?a"

  lemma {:induction false} EmptyLoopParses()
    ensures ParsePattern(EMPTY_LOOP) == Ok(Pattern(LazyLoop(Group(Some(1), Empty), [A]), 2))
  {
    var c := EMPTY_LOOP;
    NodesEnd(c, 1, 2, []);
    assert ParseBranches(c, 1, 2, []) == Got(Empty, 1, 2);
    LazyGroupParses(c, 0, 1, Got(Empty, 1, 2), Some(1), []);
    var loop := Repeat(Group(Some(1), Empty), 0, None, false);
    LiteralParses(c, 4, 2, [loop]);
    NodesEnd(c, 5, 2, [loop, A]);
    assert [] + [loop] == [loop] && [loop] + [A] == [loop, A];
    assert ParseNodes(c, 0, 1, []) == Got(Concat([loop, A]), 5, 2);
    assert ParseBranches(c, 0, 1, []) == Got(Chosen([] + [Concat([loop, A])]), 5, 2);
  }

  lemma {:induction false} EmptyLoopShape()
    ensures var body := Group(Some(1), Empty);
            && WellFormed(LazyLoop(body, [A]), 2) && FallsFreely(body) && Weightless(body)
            && AllGuarded([A]) && AllTestFree([A]) && SomeMustConsume([A])
  {
    var loop := Repeat(Group(Some(1), Empty), 0, None, false);
    assert LazyLoop(Group(Some(1), Empty), [A]).nodes == [loop, A] && [loop, A][1..] == [A] && [A][1..] == [];
    assert WellFormed(loop, 2) && AllWellFormed([A], 2) && AllWellFormed([loop, A], 2);
  }

  /** `()*?a` halts exactly where an `a` stands: on every other position of every text it goes on for ever. */
  lemma {:induction false} EmptyLazyLoopDiverges(p: Program, s: Text, pos: nat)
    requires ParsePattern(EMPTY_LOOP).Ok? && Compiled(p, ParsePattern(EMPTY_LOOP).value.ast) && pos <= |s.chars|
    ensures HaltsAt(p, s, pos, Blank(2)) <==> pos < |s.chars| && s.chars[pos] == 'a'
    ensures !AlwaysHalts(p, 2)
  {
    EmptyLoopParses();
    EmptyLoopShape();
    var body := Group(Some(1), Empty);
    EmptyBodyHaltsIff(p, s, body, [A], 2, pos, Blank(2));
    EmptyLoopMatches(s, pos, Blank(2));
    LazyLoopHaltsIff(p, body, [A], 2);
  }

  lemma {:induction false} EmptyLoopMatches(s: Text, pos: nat, saves: Saves)
    requires pos <= |s.chars|
    ensures MatchesAt(s, LazyLoop(Group(Some(1), Empty), [A]), pos, saves) <==> pos < |s.chars| && s.chars[pos] == 'a'
  {
    var body := Group(Some(1), Empty);
    var loop := Repeat(body, 0, None, false);
    var ast := LazyLoop(body, [A]);
    var x := Cursor(pos, saves).Record(0);
    assert ast.nodes == [loop, A] && [loop, A][1..] == [A] && [A][1..] == [];
    if pos < |s.chars| && s.chars[pos] == 'a' {
      var y := Cursor(pos + 1, x.saves);
      assert DerivesTimes(s, body, 0, x, x) && Derives(s, loop, x, x);
      assert Derives(s, A, x, y) && DerivesSeq(s, [], y, y);
      assert DerivesSeq(s, [A], x, y) && DerivesSeq(s, [loop, A], x, y) && Derives(s, ast, x, y);
    }
    if MatchesAt(s, ast, pos, saves) {
      var y: Cursor :| Derives(s, ast, x, y);
      var k, m := LoopDerives(s, body, [A], x, y);
      TimesStay(s, body, k, x, m);
      var z: Cursor :| Derives(s, A, m, z);
    }
  }

  // ----- running for ever although there is a match -----

  const BRANCHES := "(?:a|ab|)*?c"

  /** The body of its loop. */
  const CHOICE := Group(None, Alt([A, Concat([A, B]), Empty]))

  lemma {:induction false} ChoiceParses()
    ensures ParseAlternation(BRANCHES, 3, 1) == Got(CHOICE.inner, 8, 1)
  {
    var c := BRANCHES;
    var both := Concat([A, B]);
    assert c[3] == 'a' && c[4] == '|' && c[5] == 'a' && c[6] == 'b' && c[7] == '|' && c[8] == ')';
    assert [] + [A] == [A] && [A] + [B] == [A, B] && [A] + [both] == [A, both] && [A, both] + [Empty] == [A, both, Empty];
    LiteralParses(c, 3, 1, []);
    NodesEnd(c, 4, 1, [A]);
    P.BranchesStep(c, 3, 4, A, [], 1, 1);
    LiteralParses(c, 5, 1, []);
    LiteralParses(c, 6, 1, [A]);
    NodesEnd(c, 7, 1, [A, B]);
    P.BranchesStep(c, 5, 7, both, [A], 1, 1);
    NodesEnd(c, 8, 1, []);
    P.BranchesEnd(c, 8, 8, Empty, [A, both], 1, 1);
  }

  lemma {:induction false} BranchesParses()
    ensures ParsePattern(BRANCHES) == Ok(Pattern(LazyLoop(CHOICE, [C]), 1))
  {
    var c := BRANCHES;
    ChoiceParses();
    assert c[0] == '(' && c[1] == '?' && c[2] == ':' && c[8] == ')' && c[9] == '*' && c[10] == '?' && c[11] == 'c' && |c| == 12;
    LazyGroupParses(c, 0, 1, Got(CHOICE.inner, 8, 1), None, []);
    var loop := Repeat(CHOICE, 0, None, false);
    LiteralParses(c, 11, 1, [loop]);
    NodesEnd(c, 12, 1, [loop, C]);
    assert [] + [loop] == [loop] && [loop] + [C] == [loop, C] && [] + [Concat([loop, C])] == [Concat([loop, C])];
    P.BranchesEnd(c, 0, 12, Concat([loop, C]), [], 1, 1);
  }

  // ----- its matches -----

  lemma {:induction false} ChoiceShape()
    ensures WellFormed(LazyLoop(CHOICE, [C]), 1) && Len(CHOICE) == 7 && FallsFreely(CHOICE)
  {
    var both, loop := Concat([A, B]), Repeat(CHOICE, 0, None, false);
    assert LazyLoop(CHOICE, [C]).nodes == [loop, C] && [loop, C][1..] == [C] && [C][1..] == [];
    assert [A, B][1..] == [B] && [B][1..] == [] && [A, both, Empty][1..] == [both, Empty] && [both, Empty][1..] == [Empty];
    assert [Empty][1..] == [];
    assert AllWellFormed([B], 1) && AllWellFormed([A, B], 1) && AllWellFormed([Empty], 1) && AllWellFormed([both, Empty], 1);
    assert AllWellFormed([A, both, Empty], 1) && WellFormed(loop, 1) && AllWellFormed([C], 1) && AllWellFormed([loop, C], 1);
    assert LenSeq([B]) == 1 && LenSeq([A, B]) == 2 && LenAlt([Empty]) == 0 && LenAlt([both, Empty]) == 4;
    assert LenAlt([A, both, Empty]) == 7;
    assert LastFallsFreely([Empty]) && LastFallsFreely([both, Empty]) && LastFallsFreely([A, both, Empty]);
  }

  /** `abc` as a whole: one round through the second branch, then the `c`. */
  lemma {:induction false} BranchesMatch(saves: Saves)
    ensures MatchesAt(Text("abc", {}), LazyLoop(CHOICE, [C]), 0, saves)
  {
    var s := Text("abc", {});
    var x := Cursor(0, saves).Record(0);
    var m, n, y := Cursor(1, x.saves), Cursor(2, x.saves), Cursor(3, x.saves);
    var both, loop := Concat([A, B]), Repeat(CHOICE, 0, None, false);
    assert [A, B][1..] == [B] && [B][1..] == [] && [A, both, Empty][1..] == [both, Empty];
    assert Derives(s, A, x, m) && Derives(s, B, m, n) && Derives(s, C, n, y);
    assert DerivesSeq(s, [], n, n) && DerivesSeq(s, [B], m, n) && DerivesSeq(s, [A, B], x, n) && Derives(s, both, x, n);
    assert DerivesAlt(s, [both, Empty], x, n) && DerivesAlt(s, [A, both, Empty], x, n) && Derives(s, CHOICE, x, n);
    assert DerivesTimes(s, CHOICE, 0, n, n) && DerivesTimes(s, CHOICE, 1, x, n) && Derives(s, loop, x, n);
    assert LazyLoop(CHOICE, [C]).nodes == [loop, C] && [loop, C][1..] == [C] && [C][1..] == [];
    assert DerivesSeq(s, [], y, y) && DerivesSeq(s, [C], n, y) && DerivesSeq(s, [loop, C], x, y);
    assert Derives(s, LazyLoop(CHOICE, [C]), x, y);
  }

  /** From the `b` on, no round takes anything. */
  lemma {:induction false} RoundsStay(k: nat, x: Cursor, y: Cursor)
    requires DerivesTimes(Text("abc", {}), CHOICE, k, x, y) && x.pos == 1
    ensures y.pos == 1
    decreases k
  {
    var s := Text("abc", {});
    if k > 0 {
      var m: Cursor :| Derives(s, CHOICE, x, m) && DerivesTimes(s, CHOICE, k - 1, m, y);
      RoundStays(x, m);
      RoundsStay(k - 1, m, y);
    }
  }

  lemma {:induction false} RoundStays(x: Cursor, y: Cursor)
    requires Derives(Text("abc", {}), CHOICE, x, y) && x.pos == 1
    ensures y.pos == 1
  {
    var s := Text("abc", {});
    var both := Concat([A, B]);
    assert [A] + [both, Empty] == [A, both, Empty] && [both] + [Empty] == [both, Empty] && [Empty] + [] == [Empty];
    assert Derives(s, CHOICE.inner, x, y) && DerivesAlt(s, [A, both, Empty], x, y);
    NoSecondBranch(x, y);
    OneBranch(s, A, [both, Empty], x, y);
    OneBranch(s, both, [Empty], x, y);
    OneBranch(s, Empty, [], x, y);
  }

  lemma {:induction false} OneBranch(s: Text, first: Node, rest: seq<Node>, x: Cursor, y: Cursor)
    ensures DerivesAlt(s, [first] + rest, x, y) <==> Derives(s, first, x, y) || DerivesAlt(s, rest, x, y)
  {
    assert ([first] + rest)[1..] == rest;
  }

  lemma {:induction false} NoSecondBranch(x: Cursor, y: Cursor)
    requires x.pos == 1
    ensures !Derives(Text("abc", {}), Concat([A, B]), x, y)
  {
    var s := Text("abc", {});
    if Derives(s, Concat([A, B]), x, y) {
      assert DerivesSeq(s, [A, B], x, y);
    }
  }

  // ----- its program -----

  /** The instructions of the loop. */
  lemma {:induction false} BranchesLayout(p: Program)
    requires Compiled(p, LazyLoop(CHOICE, [C]))
    ensures SegmentLoop(p, 1, CHOICE, false) && |p| == 13 && p[0] == Save(0) && p[1] == Split(10, 2) && p[2] == Split(3, 5)
    ensures p[3] == Check(Char('a')) && p[4] == Jmp(9) && p[9] == Jmp(1) && p[10] == Check(Char('c'))
  {
    ChoiceShape();
    LoopLayout(p, CHOICE, [C], 1, 10);
    var both := Concat([A, B]);
    assert [A, both, Empty][1..] == [both, Empty] && [C][1..] == [];
    assert Segment(p, 2, CHOICE) && Segment(p, 2, CHOICE.inner) && SegmentAlt(p, 2, [A, both, Empty]) && Segment(p, 3, A);
    assert SegmentSeq(p, 10, [C]) && Segment(p, 10, C) && LenSeq([C]) == 1;
  }

  /** Behind the `a` the loop neither fails nor matches, whatever is active. */
  lemma {:induction false} StuckAtOne(p: Program, fuel: nat, saves: Saves, active: set<Key>)
    requires Compiled(p, LazyLoop(CHOICE, [C]))
    ensures Run(p, Text("abc", {}), fuel, 1, 1, saves, active) == Unfinished
  {
    var s := Text("abc", {});
    BranchesLayout(p);
    ChoiceShape();
    FallsEverywhere(s, CHOICE, 1);
    LazyLoopNeverFails(p, s, fuel, 1, CHOICE, 1, saves, active);
    var r := Run(p, s, fuel, 1, 1, saves, active);
    if r.Matched? {
      var x := Cursor(1, saves);
      RunReaches(p, s, fuel, 1, x, active);
      LoopLayout(p, CHOICE, [C], 1, 10);
      var k, y := PathDerivesLoop(p, s, 1, fuel, 1, CHOICE, false, x, r.saves);
      RoundsStay(k, x, y);
      assert false;
    }
  }

  /** On `abc`, which it matches, `(?:a|ab|)*?c` goes on for ever: it never gives up its first way
      through the loop. */
  lemma {:induction false} DivergesDespiteMatch(p: Program)
    requires ParsePattern(BRANCHES).Ok? && Compiled(p, ParsePattern(BRANCHES).value.ast)
    ensures MatchesAt(Text("abc", {}), ParsePattern(BRANCHES).value.ast, 0, Blank(1)) && !HaltsAt(p, Text("abc", {}), 0, Blank(1))
  {
    BranchesParses();
    BranchesMatch(Blank(1));
    BranchesLayout(p);
    forall fuel: nat
      ensures Run(p, Text("abc", {}), fuel, 0, 0, Blank(1), {}) == Unfinished
    {
      FirstRound(p, fuel);
    }
  }

  lemma {:induction false} FirstRound(p: Program, fuel: nat)
    requires Compiled(p, LazyLoop(CHOICE, [C]))
    ensures Run(p, Text("abc", {}), fuel, 0, 0, Blank(1), {}) == Unfinished
  {
    var s, saves := Text("abc", {}), Blank(1)[0 := Some(0)];
    BranchesLayout(p);
    if fuel >= 6 {
      StuckAtOne(p, fuel - 6, saves, {(2, 0)});
    }
    if fuel >= 5 {
      assert Run(p, s, fuel - 5, 9, 1, saves, {(2, 0)}) == Unfinished;
    }
    if fuel >= 4 {
      assert Run(p, s, fuel - 4, 4, 1, saves, {(2, 0)}) == Unfinished;
    }
    if fuel >= 3 {
      assert {} + {(2, 0)} == {(2, 0)};
      assert Run(p, s, fuel - 3, 3, 0, saves, {(2, 0)}) == Unfinished;
      assert Run(p, s, fuel - 2, 2, 0, saves, {}) == Unfinished;
    }
    if fuel >= 1 {
      assert Run(p, s, fuel - 1, 1, 0, saves, {}) == Unfinished;
    }
  }

  // ----- matching the whole text -----

  const PREFIX_FIRST := "a|ab"

  lemma {:induction false} PrefixFirstParses()
    ensures ParsePattern(PREFIX_FIRST) == Ok(Pattern(Alt([A, Concat([A, B])]), 1))
  {
    var c := PREFIX_FIRST;
    assert c[0] == 'a' && c[1] == '|' && c[2] == 'a' && c[3] == 'b' && |c| == 4;
    assert [] + [A] == [A] && [A] + [B] == [A, B] && [A] + [Concat([A, B])] == [A, Concat([A, B])];
    LiteralParses(c, 0, 1, []);
    NodesEnd(c, 1, 1, [A]);
    P.BranchesStep(c, 0, 1, A, [], 1, 1);
    LiteralParses(c, 2, 1, []);
    LiteralParses(c, 3, 1, [A]);
    NodesEnd(c, 4, 1, [A, B]);
    P.BranchesEnd(c, 2, 4, Concat([A, B]), [A], 1, 1);
  }

  /** The second branch spans `ab`. */
  lemma {:induction false} SecondBranchSpans(x: Cursor)
    requires x.pos == 0
    ensures Derives(Text("ab", {}), Alt([A, Concat([A, B])]), x, Cursor(2, x.saves))
  {
    var s := Text("ab", {});
    var m, y := Cursor(1, x.saves), Cursor(2, x.saves);
    assert Derives(s, A, x, m) && Derives(s, B, m, y);
    assert [A, B][1..] == [B] && [B][1..] == [];
    assert DerivesSeq(s, [], y, y) && DerivesSeq(s, [B], m, y) && DerivesSeq(s, [A, B], x, y);
    assert Derives(s, Concat([A, B]), x, y);
    OneBranch(s, Concat([A, B]), [], x, y);
    OneBranch(s, A, [Concat([A, B])], x, y);
    assert [Concat([A, B])] + [] == [Concat([A, B])] && [A] + [Concat([A, B])] == [A, Concat([A, B])];
  }

  /** The first result comes from the first branch. */
  lemma {:induction false} FirstBranchFirst(x: Cursor)
    requires x.pos == 0
    ensures var ys := Results(Text("ab", {}), Alt([A, Concat([A, B])]), x); ys != [] && ys[0].pos == 1
  {
    var s, branches := Text("ab", {}), [A, Concat([A, B])];
    assert Results(s, A, x) == [Cursor(1, x.saves)];
    assert ResultsAlt(s, branches, x) == Results(s, A, x) + ResultsAlt(s, branches[1..], x);
    assert Results(s, Alt(branches), x) == ResultsAlt(s, branches, x);
  }

  lemma {:induction false} NoLoops()
    ensures LoopsConsume(Alt([A, Concat([A, B])]))
  {
    var both := Concat([A, B]);
    assert [B][1..] == [] && [A, B][1..] == [B] && [both][1..] == [] && [A, both][1..] == [both];
    assert AllLoopsConsume([]);
    assert AllLoopsConsume([B]);
    assert AllLoopsConsume([A, B]);
    assert LoopsConsume(both);
    assert AllLoopsConsume([both]);
    assert AllLoopsConsume([A, both]);
  }

  /** `a|ab` can match all of `ab`, but its preferred prefix match stops after `a`, and matching the
      whole text looks no further. */
  lemma {:induction false} WholeMatchIsIncomplete()
    ensures ParsePattern(PREFIX_FIRST).Ok?
    ensures var s := Text("ab", {});
            var ast := ParsePattern(PREFIX_FIRST).value.ast;
            LoopsConsume(ast) && SomeSpans(s, ast, 1) && !FirstSpans(s, ast, 1)
  {
    PrefixFirstParses();
    var x := Cursor(0, Blank(1)).Record(0);
    SecondBranchSpans(x);
    FirstBranchFirst(x);
    NoLoops();
  }
}
