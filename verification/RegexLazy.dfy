/** Exactly when a lazy loop over a body that can be fallen through makes the executor run for ever. */
module RegexLazy {
  import opened Options
  import opened RegexSyntax
  import opened RegexGrammar
  import opened RegexProgram
  import opened RegexCompiler
  import opened RegexExec
  import opened RegexTermination
  import opened RegexLanguage
  import opened RegexGuard
  import opened RegexOrdered
  import opened RegexSearch
  import opened RegexLimits

  // ----- conditions on the pattern -----

  /** No anchors and no word boundaries. */
  predicate TestFree(node: Node)
    decreases node, 0
  {
    match node
    case Empty => true
    case Atom(t) => TakesChar(t)
    case Concat(nodes) => AllTestFree(nodes)
    case Alt(branches) => AllTestFree(branches)
    case Repeat(n, _, _, _) => TestFree(n)
    case Group(_, n) => TestFree(n)
  }

  predicate AllTestFree(nodes: seq<Node>)
    decreases nodes, 0
  {
    nodes != [] ==> TestFree(nodes[0]) && AllTestFree(nodes[1..])
  }

  /** The node can be fallen through without passing a test, and so at every position. */
  predicate FallsFreely(node: Node)
    decreases node, 0
  {
    match node
    case Empty => true
    case Atom(_) => false
    case Concat(nodes) => AllFallFreely(nodes)
    case Alt(branches) => LastFallsFreely(branches)
    case Repeat(n, min, max, greedy) =>
      && (min > 0 ==> FallsFreely(n))
      && (!greedy ==> max.Some? && (max.value > min ==> FallsFreely(n)))
    case Group(_, n) => FallsFreely(n)
  }

  predicate AllFallFreely(nodes: seq<Node>)
    decreases nodes, 0
  {
    nodes != [] ==> FallsFreely(nodes[0]) && AllFallFreely(nodes[1..])
  }

  predicate LastFallsFreely(nodes: seq<Node>)
    decreases nodes, 0
  {
    nodes != [] && if |nodes| == 1 then FallsFreely(nodes[0]) else LastFallsFreely(nodes[1..])
  }

  lemma {:induction false} FallsEverywhere(s: Text, node: Node, pos: nat)
    requires FallsFreely(node)
    ensures FallsAt(s, node, pos)
    decreases node, 0
  {
    match node
    case Empty =>
    case Concat(nodes) => AllFallEverywhere(s, nodes, pos);
    case Alt(branches) => LastFallsEverywhere(s, branches, pos);
    case Repeat(n, min, max, greedy) =>
      if FallsFreely(n) {
        FallsEverywhere(s, n, pos);
      }
    case Group(_, n) => FallsEverywhere(s, n, pos);
  }

  lemma {:induction false} AllFallEverywhere(s: Text, nodes: seq<Node>, pos: nat)
    requires AllFallFreely(nodes)
    ensures AllFallAt(s, nodes, pos)
    decreases nodes, 0
  {
    if nodes != [] {
      FallsEverywhere(s, nodes[0], pos);
      AllFallEverywhere(s, nodes[1..], pos);
    }
  }

  lemma {:induction false} LastFallsEverywhere(s: Text, nodes: seq<Node>, pos: nat)
    requires LastFallsFreely(nodes)
    ensures LastFallsAt(s, nodes, pos)
    decreases nodes, 0
  {
    if |nodes| == 1 {
      FallsEverywhere(s, nodes[0], pos);
    } else {
      LastFallsEverywhere(s, nodes[1..], pos);
    }
  }

  // ----- what need not consume matches the empty stretch -----

  lemma {:induction false} EmptyDerives(s: Text, node: Node, groups: nat, x: Cursor) returns (y: Cursor)
    requires TestFree(node) && !MustConsume(node) && WellFormed(node, groups)
    ensures Derives(s, node, x, y) && y.pos == x.pos
    decreases node, 0
  {
    match node
    case Empty => y := x;
    case Concat(nodes) => y := EmptySeqDerives(s, nodes, groups, x);
    case Alt(branches) => y := EmptyAltDerives(s, branches, groups, x);
    case Repeat(n, min, max, _) =>
      if min == 0 {
        y := x;
        assert DerivesTimes(s, n, 0, x, y);
      } else {
        y := EmptyTimesDerive(s, n, groups, min, x);
        assert DerivesTimes(s, n, min, x, y);
      }
    case Group(index, n) =>
      if index.None? {
        y := EmptyDerives(s, n, groups, x);
      } else {
        var m := EmptyDerives(s, n, groups, x.Record(2 * index.value));
        y := m.Record(2 * index.value + 1);
      }
  }

  lemma {:induction false} EmptySeqDerives(s: Text, nodes: seq<Node>, groups: nat, x: Cursor) returns (y: Cursor)
    requires AllTestFree(nodes) && !SomeMustConsume(nodes) && AllWellFormed(nodes, groups)
    ensures DerivesSeq(s, nodes, x, y) && y.pos == x.pos
    decreases nodes, 0
  {
    if nodes == [] {
      y := x;
    } else {
      var m := EmptyDerives(s, nodes[0], groups, x);
      y := EmptySeqDerives(s, nodes[1..], groups, m);
    }
  }

  lemma {:induction false} EmptyAltDerives(s: Text, branches: seq<Node>, groups: nat, x: Cursor) returns (y: Cursor)
    requires AllTestFree(branches) && !AllMustConsume(branches) && AllWellFormed(branches, groups)
    ensures DerivesAlt(s, branches, x, y) && y.pos == x.pos
    decreases branches, 0
  {
    if MustConsume(branches[0]) {
      y := EmptyAltDerives(s, branches[1..], groups, x);
    } else {
      y := EmptyDerives(s, branches[0], groups, x);
    }
  }

  lemma {:induction false} EmptyTimesDerive(s: Text, node: Node, groups: nat, k: nat, x: Cursor) returns (y: Cursor)
    requires TestFree(node) && !MustConsume(node) && WellFormed(node, groups)
    ensures DerivesTimes(s, node, k, x, y) && y.pos == x.pos
    decreases node, k + 1
  {
    if k == 0 {
      y := x;
    } else {
      var m := EmptyDerives(s, node, groups, x);
      y := EmptyTimesDerive(s, node, groups, k - 1, m);
    }
  }

  // ----- running the end of a program -----

  /** A run that cannot come back before `from` does not see which splits before it are active. */
  lemma {:induction false} RunStays(p: Program, s: Text, fuel: nat, from: nat, pc: nat, pos: nat, saves: Saves,
                                    active: set<Key>, other: set<Key>)
    requires (forall i: nat | from <= i < |p| :: StaysFrom(p, from, i)) && from <= pc && pos <= |s.chars|
    requires forall key: Key :: key.0 >= from ==> (key in active <==> key in other)
    ensures Run(p, s, fuel, pc, pos, saves, active) == Run(p, s, fuel, pc, pos, saves, other)
    decreases fuel
  {
    if fuel > 0 && pc < |p| {
      assert StaysFrom(p, from, pc);
      match p[pc]
      case Match =>
      case Check(t) =>
        if Passes(t, s, pos) {
          RunStays(p, s, fuel - 1, from, pc + 1, pos + Width(t), saves, active, other);
        }
      case Save(slot) =>
        if slot < |saves| {
          RunStays(p, s, fuel - 1, from, pc + 1, pos, saves[slot := Some(pos)], active, other);
        }
      case Jmp(target) => RunStays(p, s, fuel - 1, from, target, pos, saves, active, other);
      case Split(a, b) =>
        RunStays(p, s, fuel - 1, from, a, pos, saves, active + {(pc, pos)}, other + {(pc, pos)});
        RunStays(p, s, fuel - 1, from, b, pos, saves, active, other);
    }
  }

  /** Nodes at the end of a program, before the save and the match that close it. */
  ghost predicate EndsWith(p: Program, lo: nat, nodes: seq<Node>) {
    && SegmentSeq(p, lo, nodes) && |p| == lo + LenSeq(nodes) + 2
    && p[|p| - 2] == Save(1) && p[|p| - 1] == Match
  }

  lemma {:induction false} EndIsRanked(p: Program, lo: nat, nodes: seq<Node>, groups: nat) returns (rank: seq<nat>)
    requires AllWellFormed(nodes, groups) && AllGuarded(nodes) && groups > 0 && EndsWith(p, lo, nodes)
    ensures RankedFrom(p, rank, 2 * groups, lo)
  {
    var end := lo + LenSeq(nodes);
    rank := RankSeq(p, seq(|p|, i => 0)[end := 1], 2 * groups, groups, lo, nodes);
    forall pc: nat | lo <= pc < |p|
      ensures RankedAt(p, rank, 2 * groups, pc) && StaysFrom(p, lo, pc)
    {
      if pc < end {
        assert LocallyRanked(p, rank, 2 * groups, lo, end, pc);
      }
    }
  }

  /** Such an end halts and succeeds wherever some path through it accepts. */
  lemma {:induction false} EndSucceeds(p: Program, s: Text, lo: nat, nodes: seq<Node>, groups: nat, n: nat, pos: nat, saves: Saves,
                                       active: set<Key>)
    returns (fuel: nat)
    requires AllWellFormed(nodes, groups) && AllGuarded(nodes) && groups > 0 && EndsWith(p, lo, nodes)
    requires pos <= |s.chars| && |saves| == 2 * groups && Accepts(p, s, n, lo, pos, {})
    requires forall key <- active :: key.0 < lo
    ensures Run(p, s, fuel, lo, pos, saves, active).Matched?
  {
    var rank := EndIsRanked(p, lo, nodes, groups);
    fuel := RankedHalts(p, s, rank, lo, lo, pos, saves, {});
    GuardLosesNothing(p, s, fuel, n, lo, pos, saves, {});
    RunStays(p, s, fuel, lo, lo, pos, saves, {}, active);
  }

  lemma {:induction false} EndAccepts(p: Program, s: Text, lo: nat, nodes: seq<Node>, groups: nat, x: Cursor, y: Cursor)
    returns (n: nat)
    requires AllWellFormed(nodes, groups) && EndsWith(p, lo, nodes) && y.pos <= |s.chars| && DerivesSeq(s, nodes, x, y)
    ensures Accepts(p, s, n, lo, x.pos, {})
  {
    var end := lo + LenSeq(nodes);
    assert Accepts(p, s, 1, end + 1, y.pos, {}) && Accepts(p, s, 2, end, y.pos, {});
    n := SeqAccepts(p, s, groups, 2, lo, nodes, x, y);
  }

  // ----- exactly when such a loop halts -----

  ghost predicate HaltsAt(p: Program, s: Text, pos: nat, saves: Saves)
    requires pos <= |s.chars|
  {
    exists fuel: nat :: Run(p, s, fuel, 0, pos, saves, {}) != Unfinished
  }

  /** The executor halts on every text, from every position. */
  ghost predicate AlwaysHalts(p: Program, groups: nat) {
    forall s: Text, pos: nat, saves: Saves :: pos <= |s.chars| && |saves| == 2 * groups ==> HaltsAt(p, s, pos, saves)
  }

  /** Where a lazy loop stands in the program, and what follows it. */
  lemma {:induction false} LoopLayout(p: Program, body: Node, rest: seq<Node>, groups: nat, lo: nat)
    requires WellFormed(LazyLoop(body, rest), groups) && Compiled(p, LazyLoop(body, rest)) && lo == 3 + Len(body)
    ensures p[0] == Save(0) && SegmentLoop(p, 1, body, false) && p[1] == Split(lo, 2) && EndsWith(p, lo, rest)
    ensures WellFormed(body, groups) && AllWellFormed(rest, groups)
  {
    var ast := LazyLoop(body, rest);
    var loop := Repeat(body, 0, None, false);
    assert ast.nodes[0] == loop && ast.nodes[1..] == rest && AllWellFormed(ast.nodes, groups) && WellFormed(loop, groups);
    assert SegmentSeq(p, 1, ast.nodes) && Segment(p, 1, loop) && SegmentTail(p, 1, body, None, false);
    assert Len(loop) == Len(body) + 2 && LenSeq(ast.nodes) == Len(loop) + LenSeq(rest);
  }

  /** The way out of the loop is tried first, so the executor halts at once where a path through the
      rest accepts. */
  lemma {:induction false} SkipHalts(p: Program, s: Text, body: Node, rest: seq<Node>, groups: nat, n: nat, pos: nat, saves: Saves)
    requires WellFormed(LazyLoop(body, rest), groups) && Compiled(p, LazyLoop(body, rest)) && groups > 0 && AllGuarded(rest)
    requires pos <= |s.chars| && |saves| == 2 * groups && Accepts(p, s, n, 3 + Len(body), pos, {})
    ensures HaltsAt(p, s, pos, saves)
  {
    var lo := 3 + Len(body);
    LoopLayout(p, body, rest, groups, lo);
    var saves' := saves[0 := Some(pos)];
    var fuel := EndSucceeds(p, s, lo, rest, groups, n, pos, saves', {(1, pos)});
    assert {} + {(1, pos)} == {(1, pos)};
    assert Run(p, s, fuel + 1, 1, pos, saves', {}).Matched?;
    assert Run(p, s, fuel + 2, 0, pos, saves, {}).Matched?;
  }

  /** Every attempt at the very end of a text, where nothing is left for the rest to take, goes on for
      ever. */
  lemma {:induction false} EndDiverges(p: Program, s: Text, body: Node, rest: seq<Node>, groups: nat, saves: Saves)
    requires WellFormed(LazyLoop(body, rest), groups) && Compiled(p, LazyLoop(body, rest)) && groups > 0
    requires FallsFreely(body) && SomeMustConsume(rest) && |saves| == 2 * groups
    ensures !HaltsAt(p, s, |s.chars|, saves)
  {
    ConsumingLoop(body, rest);
    NoMatchAtEnd(s, LazyLoop(body, rest), groups, saves);
    DivergesWhereItDoesNot(p, s, body, rest, groups, |s.chars|, saves);
  }

  lemma {:induction false} ConsumingLoop(body: Node, rest: seq<Node>)
    requires SomeMustConsume(rest)
    ensures MustConsume(LazyLoop(body, rest))
  {
    assert LazyLoop(body, rest).nodes[1..] == rest;
  }

  lemma {:induction false} NoMatchAtEnd(s: Text, ast: Node, groups: nat, saves: Saves)
    requires MustConsume(ast) && WellFormed(ast, groups) && |saves| == 2 * groups
    ensures !MatchesAt(s, ast, |s.chars|, saves)
  {
    if MatchesAt(s, ast, |s.chars|, saves) {
      var x := Cursor(|s.chars|, saves).Record(0);
      var y: Cursor :| Derives(s, ast, x, y);
      MustConsumeAdvances(s, ast, groups, x, y);
    }
  }

  // ----- bodies that take no characters -----

  /** The node matches nothing but empty stretches. */
  predicate Weightless(node: Node)
    decreases node, 0
  {
    match node
    case Empty => true
    case Atom(t) => !TakesChar(t)
    case Concat(nodes) => AllWeightless(nodes)
    case Alt(branches) => AllWeightless(branches)
    case Repeat(n, _, _, _) => Weightless(n)
    case Group(_, n) => Weightless(n)
  }

  predicate AllWeightless(nodes: seq<Node>)
    decreases nodes, 0
  {
    nodes != [] ==> Weightless(nodes[0]) && AllWeightless(nodes[1..])
  }

  lemma {:induction false} WeightlessStays(s: Text, node: Node, x: Cursor, y: Cursor)
    requires Weightless(node) && Derives(s, node, x, y)
    ensures y.pos == x.pos
    decreases node, 0
  {
    match node
    case Empty =>
    case Atom(_) =>
    case Concat(nodes) => SeqStays(s, nodes, x, y);
    case Alt(branches) => AltStays(s, branches, x, y);
    case Repeat(n, min, max, _) =>
      var k: nat :| DerivesTimes(s, n, k, x, y);
      TimesStay(s, n, k, x, y);
    case Group(index, n) =>
      if index.None? {
        WeightlessStays(s, n, x, y);
      } else {
        var m: Cursor :| Derives(s, n, x.Record(2 * index.value), m) && y == m.Record(2 * index.value + 1);
        WeightlessStays(s, n, x.Record(2 * index.value), m);
      }
  }

  lemma {:induction false} SeqStays(s: Text, nodes: seq<Node>, x: Cursor, y: Cursor)
    requires AllWeightless(nodes) && DerivesSeq(s, nodes, x, y)
    ensures y.pos == x.pos
    decreases nodes, 0
  {
    if nodes != [] {
      var m: Cursor :| Derives(s, nodes[0], x, m) && DerivesSeq(s, nodes[1..], m, y);
      WeightlessStays(s, nodes[0], x, m);
      SeqStays(s, nodes[1..], m, y);
    }
  }

  lemma {:induction false} AltStays(s: Text, branches: seq<Node>, x: Cursor, y: Cursor)
    requires AllWeightless(branches) && DerivesAlt(s, branches, x, y)
    ensures y.pos == x.pos
    decreases branches, 0
  {
    if Derives(s, branches[0], x, y) {
      WeightlessStays(s, branches[0], x, y);
    } else {
      AltStays(s, branches[1..], x, y);
    }
  }

  lemma {:induction false} TimesStay(s: Text, node: Node, k: nat, x: Cursor, y: Cursor)
    requires Weightless(node) && DerivesTimes(s, node, k, x, y)
    ensures y.pos == x.pos
    decreases node, k + 1
  {
    if k > 0 {
      var m: Cursor :| Derives(s, node, x, m) && DerivesTimes(s, node, k - 1, m, y);
      WeightlessStays(s, node, x, m);
      TimesStay(s, node, k - 1, m, y);
    }
  }

  lemma {:induction false} LoopDerives(s: Text, body: Node, rest: seq<Node>, x: Cursor, y: Cursor) returns (k: nat, m: Cursor)
    requires Derives(s, LazyLoop(body, rest), x, y)
    ensures DerivesTimes(s, body, k, x, m) && DerivesSeq(s, rest, m, y)
  {
    var nodes := LazyLoop(body, rest).nodes;
    assert DerivesSeq(s, nodes, x, y) && nodes[1..] == rest;
    m :| Derives(s, nodes[0], x, m) && DerivesSeq(s, nodes[1..], m, y);
    assert Derives(s, Repeat(body, 0, None, false), x, m);
    k :| DerivesTimes(s, body, k, x, m);
  }

  /** Where the whole pattern matches, the loop's rounds leave the position alone and the rest matches there. */
  lemma {:induction false} HaltsWhereItMatches(p: Program, s: Text, body: Node, rest: seq<Node>, groups: nat, pos: nat, saves: Saves,
                                               y: Cursor)
    requires WellFormed(LazyLoop(body, rest), groups) && Compiled(p, LazyLoop(body, rest)) && groups > 0
    requires Weightless(body) && AllGuarded(rest) && pos <= |s.chars| && |saves| == 2 * groups
    requires Derives(s, LazyLoop(body, rest), Cursor(pos, saves).Record(0), y)
    ensures HaltsAt(p, s, pos, saves)
  {
    var lo, x := 3 + Len(body), Cursor(pos, saves).Record(0);
    LoopLayout(p, body, rest, groups, lo);
    var k, m := LoopDerives(s, body, rest, x, y);
    TimesStay(s, body, k, x, m);
    DerivationIsSound(s, LazyLoop(body, rest), groups, x, y);
    var n := EndAccepts(p, s, lo, rest, groups, m, y);
    SkipHalts(p, s, body, rest, groups, n, pos, saves);
  }

  lemma {:induction false} DivergesWhereItDoesNot(p: Program, s: Text, body: Node, rest: seq<Node>, groups: nat, pos: nat, saves: Saves)
    requires WellFormed(LazyLoop(body, rest), groups) && Compiled(p, LazyLoop(body, rest)) && groups > 0
    requires FallsFreely(body) && pos <= |s.chars| && |saves| == 2 * groups && !MatchesAt(s, LazyLoop(body, rest), pos, saves)
    ensures !HaltsAt(p, s, pos, saves)
  {
    FallsEverywhere(s, body, pos);
    forall fuel: nat
      ensures Run(p, s, fuel, 0, pos, saves, {}) == Unfinished
    {
      LazyLoopDiverges(p, s, body, rest, groups, fuel, pos, saves);
    }
  }

  /** With a body that takes no characters the executor halts exactly where the pattern matches, on
      every text and from every position; tests may stand after the loop. */
  lemma {:induction false} EmptyBodyHaltsIff(p: Program, s: Text, body: Node, rest: seq<Node>, groups: nat, pos: nat, saves: Saves)
    requires WellFormed(LazyLoop(body, rest), groups) && Compiled(p, LazyLoop(body, rest)) && groups > 0
    requires FallsFreely(body) && Weightless(body) && AllGuarded(rest) && pos <= |s.chars| && |saves| == 2 * groups
    ensures HaltsAt(p, s, pos, saves) <==> MatchesAt(s, LazyLoop(body, rest), pos, saves)
  {
    if MatchesAt(s, LazyLoop(body, rest), pos, saves) {
      var y: Cursor :| Derives(s, LazyLoop(body, rest), Cursor(pos, saves).Record(0), y);
      HaltsWhereItMatches(p, s, body, rest, groups, pos, saves, y);
    } else {
      DivergesWhereItDoesNot(p, s, body, rest, groups, pos, saves);
    }
  }
}
