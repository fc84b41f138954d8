/** Searching for a plain text: a pattern that spells a text character by character matches that text. */
module RegexLiteral {
  import opened Options
  import opened RegexSyntax
  import opened RegexGrammar
  import opened RegexProgram
  import opened RegexCompiler
  import opened RegexExec
  import opened RegexLanguage
  import opened RegexGuard
  import opened RegexOrdered
  import opened RegexPriority
  import opened RegexPattern
  import opened RegexClasses

  /** The text as a pattern, characters with a meaning of their own escaped. */
  function Escaped(t: string): string {
    if t == [] then "" else ShowTest(Char(t[0])) + Escaped(t[1..])
  }

  function Atoms(t: string): (nodes: seq<Node>)
    ensures |nodes| == |t|
  {
    if t == [] then [] else [Atom(Char(t[0]))] + Atoms(t[1..])
  }

  function Tree(t: string): Node {
    Joined(Atoms(t))
  }

  lemma {:induction false} AtomsAreItems(t: string, g: nat)
    ensures AllItems(Atoms(t)) && AllNumbered(Atoms(t), g) && ShowAll(Atoms(t)) == Escaped(t)
    decreases |t|
  {
    if t != [] {
      AtomsAreItems(t[1..], g);
      var first := Atom(Char(t[0]));
      assert IsUnit(first) && IsItem(first);
      assert Atoms(t)[0] == first && Atoms(t)[1..] == Atoms(t[1..]);
    }
  }

  lemma {:induction false} TreeIsBody(t: string)
    ensures IsBody(Tree(t)) && Numbered(Tree(t), 1) && Show(Tree(t)) == Escaped(t)
  {
    AtomsAreItems(t, 1);
    if |t| == 1 {
      AtomIsBody(Char(t[0]));
      assert t[1..] == [] && ShowTest(Char(t[0])) + "" == ShowTest(Char(t[0]));
    } else if |t| > 1 {
      assert IsBranch(Tree(t));
    }
  }

  /** The text stands at `pos`. */
  predicate StandsAt(s: Text, pos: nat, t: string) {
    pos + |t| <= |s.chars| && s.chars[pos..pos + |t|] == t
  }

  lemma {:induction false} StandsNext(s: Text, pos: nat, t: string)
    requires t != []
    ensures StandsAt(s, pos, t) <==> pos < |s.chars| && s.chars[pos] == t[0] && StandsAt(s, pos + 1, t[1..])
  {
    if pos + |t| <= |s.chars| {
      assert s.chars[pos..pos + |t|] == [s.chars[pos]] + s.chars[pos + 1..pos + |t|];
      assert t == [t[0]] + t[1..];
    }
  }

  lemma {:induction false} AtomsDerive(s: Text, t: string, x: Cursor, y: Cursor)
    requires x.pos <= |s.chars|
    ensures DerivesSeq(s, Atoms(t), x, y) <==> StandsAt(s, x.pos, t) && y == Cursor(x.pos + |t|, x.saves)
    decreases |t|
  {
    if t != [] {
      StandsNext(s, x.pos, t);
      var first, m := Atom(Char(t[0])), Cursor(x.pos + 1, x.saves);
      assert Atoms(t)[0] == first && Atoms(t)[1..] == Atoms(t[1..]);
      forall z: Cursor
        ensures Derives(s, first, x, z) <==> x.pos < |s.chars| && s.chars[x.pos] == t[0] && z == m
      {
      }
      if x.pos < |s.chars| {
        AtomsDerive(s, t[1..], m, y);
      }
    }
  }

  lemma {:induction false} TreeDerives(s: Text, t: string, x: Cursor, y: Cursor)
    requires x.pos <= |s.chars|
    ensures Derives(s, Tree(t), x, y) <==> StandsAt(s, x.pos, t) && y == Cursor(x.pos + |t|, x.saves)
  {
    AtomsDerive(s, t, x, y);
    if |t| == 1 {
      var nodes := Atoms(t);
      assert nodes[1..] == [];
      assert DerivesSeq(s, nodes, x, y) <==> exists m: Cursor :: Derives(s, nodes[0], x, m) && m == y;
    }
  }

  /** The pattern matches exactly where the text stands. */
  lemma {:induction false} EscapedMatches(t: string, s: Text, pos: nat)
    requires pos <= |s.chars|
    ensures PatternMatches(Escaped(t), s, pos) <==> StandsAt(s, pos, t)
  {
    TreeIsBody(t);
    ShownParses(Tree(t));
    var saves := seq(2 * After(Tree(t), 1), _ => None);
    var x := Cursor(pos, saves).Record(0);
    TreeDerives(s, t, x, Cursor(pos + |t|, x.saves));
    if MatchesAt(s, Tree(t), pos, saves) {
      var y: Cursor :| Derives(s, Tree(t), x, y);
      TreeDerives(s, t, x, y);
    }
  }

  // ----- what a group around a text captures -----

  lemma {:induction false} AtomsAreSimple(t: string)
    ensures AllWellFormed(Atoms(t), 2) && AllLoopsConsume(Atoms(t))
    decreases |t|
  {
    if t != [] {
      AtomsAreSimple(t[1..]);
      assert Atoms(t)[0] == Atom(Char(t[0])) && Atoms(t)[1..] == Atoms(t[1..]);
    }
  }

  lemma {:induction false} TreeIsSimple(t: string)
    ensures WellFormed(Tree(t), 2) && LoopsConsume(Tree(t))
  {
    AtomsAreSimple(t);
  }

  lemma {:induction false} AtomsResults(s: Text, t: string, x: Cursor)
    requires x.pos <= |s.chars|
    ensures ResultsSeq(s, Atoms(t), x) == if StandsAt(s, x.pos, t) then [Cursor(x.pos + |t|, x.saves)] else []
    decreases |t|
  {
    if t != [] {
      StandsNext(s, x.pos, t);
      var first, m := Atom(Char(t[0])), Cursor(x.pos + 1, x.saves);
      assert Atoms(t)[0] == first && Atoms(t)[1..] == Atoms(t[1..]);
      if x.pos < |s.chars| && s.chars[x.pos] == t[0] {
        AtomsResults(s, t[1..], m);
        assert Results(s, first, x) == [m] && [m][1..] == [];
        assert ThenSeq(s, [], Atoms(t[1..])) == [];
      } else {
        assert Results(s, first, x) == [];
      }
    }
  }

  lemma {:induction false} TreeResults(s: Text, t: string, x: Cursor)
    requires x.pos <= |s.chars|
    ensures Results(s, Tree(t), x) == if StandsAt(s, x.pos, t) then [Cursor(x.pos + |t|, x.saves)] else []
  {
    AtomsResults(s, t, x);
    if |t| == 1 {
      StandsNext(s, x.pos, t);
      assert t[1..] == [];
    }
  }

  /** A group around a plain text is given exactly the stretch the text takes, as is the whole match. */
  lemma {:induction false} GroupCaptures(p: Program, s: Text, t: string, fuel: nat, x: Cursor)
    requires Compiled(p, Group(Some(1), Tree(t))) && InText(s, 2, x)
    requires Run(p, s, fuel, 0, x.pos, x.saves, {}) != Unfinished
    ensures Run(p, s, fuel, 0, x.pos, x.saves, {})
         == if StandsAt(s, x.pos, t)
            then Matched([Some(x.pos), Some(x.pos + |t|), Some(x.pos), Some(x.pos + |t|)])
            else Outcome.Failed
  {
    var ast := Group(Some(1), Tree(t));
    TreeIsSimple(t);
    RunReturnsFirstResult(p, s, ast, 2, fuel, x);
    var y := x.Record(0).Record(2);
    TreeResults(s, t, y);
    if StandsAt(s, x.pos, t) {
      OneRecorded(Cursor(x.pos + |t|, y.saves), 3);
    }
  }

  lemma {:induction false} OneRecorded(y: Cursor, slot: nat)
    ensures RecordEach([y], slot) == [y.Record(slot)]
  {
    assert [y][1..] == [];
  }
}
