/** Which match comes first: greedy repeats take the most rounds, lazy ones the fewest, and alternatives
    are tried from the left. */
module RegexPreference {
  import opened Options
  import opened RegexSyntax
  import opened RegexLanguage
  import opened RegexOrdered
  import opened RegexProgram
  import opened RegexCompiler
  import opened RegexExec
  import opened RegexPriority

  /** So many characters in a row pass the test. */
  ghost predicate PassRun(s: Text, t: Test, pos: nat, n: nat) {
    pos + n <= |s.chars| && forall i | pos <= i < pos + n :: Passes(t, s, i)
  }

  /** The most rounds that the bound and the text allow. */
  ghost predicate Most(s: Text, t: Test, extra: Option<nat>, pos: nat, n: nat) {
    && PassRun(s, t, pos, n) && (extra.Some? ==> n <= extra.value)
    && (extra == Some(n) || !PassRun(s, t, pos, n + 1))
  }

  /** Cursors after so many rounds, `low` to `high`, the most first when greedy. */
  function Rounds(x: Cursor, low: nat, high: nat, greedy: bool): seq<Cursor> {
    if low > high then []
    else seq(high - low + 1, i requires 0 <= i <= high - low => Cursor(x.pos + if greedy then high - i else low + i, x.saves))
  }

  lemma {:induction false} RoundsMore(x: Cursor, high: nat, greedy: bool)
    ensures Rounds(x, 0, high + 1, greedy)
         == var more := Rounds(Cursor(x.pos + 1, x.saves), 0, high, greedy); if greedy then more + [x] else [x] + more
  {
  }

  lemma {:induction false} ThenOne(s: Text, y: Cursor, node: Node, min: nat, extra: Option<nat>, greedy: bool, bound: nat)
    requires extra.None? ==> Remaining(s, y.pos) <= bound
    ensures ThenIterate(s, [y], node, min, extra, greedy, bound) == Iterate(s, node, min, extra, greedy, y)
  {
    assert [y][1..] == [];
  }

  lemma {:induction false} ThenNone(s: Text, node: Node, min: nat, extra: Option<nat>, greedy: bool, bound: nat)
    ensures ThenIterate(s, [], node, min, extra, greedy, bound) == []
  {
  }

  lemma {:induction false} OneMore(s: Text, t: Test, extra: Option<nat>, greedy: bool, x: Cursor)
    requires TakesChar(t) && x.pos <= |s.chars| && Passes(t, s, x.pos) && extra != Some(0)
    ensures var y := Cursor(x.pos + 1, x.saves);
            var more := Iterate(s, Atom(t), 0, if extra.Some? then Some(extra.value - 1) else None, greedy, y);
            Iterate(s, Atom(t), 0, extra, greedy, x) == if greedy then more + [x] else [x] + more
  {
    var y := Cursor(x.pos + 1, x.saves);
    assert Results(s, Atom(t), x) == [y];
    assert [y][1..] == [] && Advancing(s, [], x.pos) == [];
    assert x.pos < y.pos <= |s.chars| && Advancing(s, [y], x.pos) == [y];
    if extra.Some? {
      ThenOne(s, y, Atom(t), 0, Some(extra.value - 1), greedy, 0);
    } else {
      ThenOne(s, y, Atom(t), 0, None, greedy, Remaining(s, x.pos) - 1);
    }
  }

  lemma {:induction false} NoMore(s: Text, t: Test, extra: Option<nat>, greedy: bool, x: Cursor)
    requires x.pos <= |s.chars| && !Passes(t, s, x.pos)
    ensures Iterate(s, Atom(t), 0, extra, greedy, x) == [x]
  {
    assert Results(s, Atom(t), x) == [] && Advancing(s, [], x.pos) == [];
    if extra.Some? && extra.value > 0 {
      ThenNone(s, Atom(t), 0, Some(extra.value - 1), greedy, 0);
    }
  }

  lemma {:induction false} OptionalRounds(s: Text, t: Test, extra: Option<nat>, greedy: bool, x: Cursor, n: nat)
    requires TakesChar(t) && x.pos <= |s.chars| && Most(s, t, extra, x.pos, n)
    ensures Iterate(s, Atom(t), 0, extra, greedy, x) == Rounds(x, 0, n, greedy)
    decreases n
  {
    if extra == Some(0) {
      assert n == 0;
    } else {
      var y := Cursor(x.pos + 1, x.saves);
      if Passes(t, s, x.pos) {
        assert PassRun(s, t, x.pos, 1);
        assert n > 0;
        var less := if extra.Some? then Some(extra.value - 1) else None;
        assert Most(s, t, less, y.pos, n - 1);
        OptionalRounds(s, t, less, greedy, y, n - 1);
        OneMore(s, t, extra, greedy, x);
        RoundsMore(x, n - 1, greedy);
      } else {
        assert n == 0;
        NoMore(s, t, extra, greedy, x);
      }
    }
  }

  lemma {:induction false} MandatoryRounds(s: Text, t: Test, min: nat, extra: Option<nat>, greedy: bool, x: Cursor)
    requires TakesChar(t) && x.pos <= |s.chars|
    ensures Iterate(s, Atom(t), min, extra, greedy, x)
         == if PassRun(s, t, x.pos, min) then Iterate(s, Atom(t), 0, extra, greedy, Cursor(x.pos + min, x.saves)) else []
    decreases min
  {
    if min > 0 {
      var y := Cursor(x.pos + 1, x.saves);
      if Passes(t, s, x.pos) {
        assert Results(s, Atom(t), x) == [y];
        ThenOne(s, y, Atom(t), min - 1, extra, greedy, |s.chars|);
        MandatoryRounds(s, t, min - 1, extra, greedy, y);
        assert PassRun(s, t, x.pos, min) <==> PassRun(s, t, y.pos, min - 1);
      } else {
        assert Results(s, Atom(t), x) == [];
        ThenNone(s, Atom(t), min - 1, extra, greedy, |s.chars|);
      }
    }
  }

  /** The results of a repeated test: every number of rounds from `min` to the most possible, the most
      first when greedy and the fewest first when lazy. */
  lemma {:induction false} RepeatOrder(s: Text, t: Test, min: nat, max: Option<nat>, greedy: bool, x: Cursor, most: nat)
    requires TakesChar(t) && x.pos <= |s.chars| && (max.Some? ==> min <= max.value) && Most(s, t, max, x.pos, most)
    ensures Results(s, Repeat(Atom(t), min, max, greedy), x) == Rounds(x, min, most, greedy)
  {
    var extra := Extra(min, max);
    MandatoryRounds(s, t, min, extra, greedy, x);
    MostAfter(s, t, min, max, x.pos, most);
    if min <= most {
      OptionalRounds(s, t, extra, greedy, Cursor(x.pos + min, x.saves), most - min);
      RoundsAfter(x, min, most, greedy);
    }
  }

  lemma {:induction false} MostAfter(s: Text, t: Test, min: nat, max: Option<nat>, pos: nat, most: nat)
    requires (max.Some? ==> min <= max.value) && Most(s, t, max, pos, most)
    ensures min <= most <==> PassRun(s, t, pos, min)
    ensures min <= most ==> Most(s, t, Extra(min, max), pos + min, most - min)
  {
    if min <= most {
      assert PassRun(s, t, pos + min, most - min + 1) ==> PassRun(s, t, pos, most + 1);
    } else if PassRun(s, t, pos, min) {
      assert PassRun(s, t, pos, most + 1);
    }
  }

  lemma {:induction false} RoundsAfter(x: Cursor, min: nat, most: nat, greedy: bool)
    requires min <= most
    ensures Rounds(Cursor(x.pos + min, x.saves), 0, most - min, greedy) == Rounds(x, min, most, greedy)
  {
  }

  /** What a compiled pattern of one repeated test finds. */
  lemma {:induction false} RepeatRun(p: Program, s: Text, t: Test, min: nat, max: Option<nat>, greedy: bool, fuel: nat,
                                     x: Cursor, most: nat)
    requires TakesChar(t) && (max.Some? ==> min <= max.value) && Most(s, t, max, x.pos, most)
    requires Compiled(p, Repeat(Atom(t), min, max, greedy)) && InText(s, 1, x)
    requires Run(p, s, fuel, 0, x.pos, x.saves, {}) != Unfinished
    ensures Run(p, s, fuel, 0, x.pos, x.saves, {})
         == if min > most then Failed else Matched([Some(x.pos), Some(x.pos + if greedy then most else min)])
  {
    var ast := Repeat(Atom(t), min, max, greedy);
    RunReturnsFirstResult(p, s, ast, 1, fuel, x);
    RepeatOrder(s, t, min, max, greedy, x.Record(0), most);
  }

  /** An alternation finds what its first branch with a match finds. */
  lemma {:induction false} FirstBranchWins(s: Text, branches: seq<Node>, x: Cursor, i: nat)
    requires i < |branches| && Results(s, branches[i], x) != [] && forall k | 0 <= k < i :: Results(s, branches[k], x) == []
    ensures Results(s, Alt(branches), x) != [] && Results(s, Alt(branches), x)[0] == Results(s, branches[i], x)[0]
    decreases i
  {
    var rest := branches[1..];
    assert Results(s, Alt(branches), x) == Results(s, branches[0], x) + Results(s, Alt(rest), x);
    if i > 0 {
      assert forall k | 0 <= k < i - 1 :: rest[k] == branches[k + 1];
      FirstBranchWins(s, rest, x, i - 1);
    }
  }
}
