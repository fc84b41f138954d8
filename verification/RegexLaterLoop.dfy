/** Exactly when a lazy loop further on in a pattern makes the executor run for ever. */
module RegexLaterLoop {
  import opened Options
  import opened RegexSyntax
  import opened RegexProgram
  import opened RegexCompiler
  import opened RegexExec
  import opened RegexTermination
  import opened RegexLanguage
  import opened RegexGuard
  import opened RegexOrdered
  import opened RegexSearch
  import opened RegexLimits
  import opened RegexLazy

  /** The pattern `body*?` between `prefix` and `rest`. */
  function LaterLoop(prefix: seq<Node>, body: Node, rest: seq<Node>): Node {
    Concat(prefix + LazyLoop(body, rest).nodes)
  }

  // ----- sequences in two parts -----

  lemma {:induction false} LenParts(a: seq<Node>, b: seq<Node>)
    ensures LenSeq(a + b) == LenSeq(a) + LenSeq(b)
    decreases |a|
  {
    if a == [] {
      assert a + b == b;
    } else {
      assert (a + b)[0] == a[0] && (a + b)[1..] == a[1..] + b;
      LenParts(a[1..], b);
    }
  }

  lemma {:induction false} WellFormedParts(a: seq<Node>, b: seq<Node>, groups: nat)
    requires AllWellFormed(a + b, groups)
    ensures AllWellFormed(a, groups) && AllWellFormed(b, groups)
    decreases |a|
  {
    if a == [] {
      assert a + b == b;
    } else {
      assert (a + b)[0] == a[0] && (a + b)[1..] == a[1..] + b;
      WellFormedParts(a[1..], b, groups);
    }
  }

  lemma {:induction false} SegmentParts(p: Program, lo: nat, mid: nat, a: seq<Node>, b: seq<Node>)
    requires SegmentSeq(p, lo, a + b) && mid == lo + LenSeq(a)
    ensures SegmentSeq(p, lo, a) && SegmentSeq(p, mid, b)
    decreases |a|
  {
    LenParts(a, b);
    if a == [] {
      assert a + b == b;
    } else {
      assert (a + b)[0] == a[0] && (a + b)[1..] == a[1..] + b;
      SegmentParts(p, lo + Len(a[0]), mid, a[1..], b);
    }
  }

  lemma {:induction false} DerivesParts(s: Text, a: seq<Node>, b: seq<Node>, x: Cursor, y: Cursor) returns (m: Cursor)
    requires DerivesSeq(s, a + b, x, y)
    ensures DerivesSeq(s, a, x, m) && DerivesSeq(s, b, m, y)
    decreases |a|
  {
    if a == [] {
      assert a + b == b;
      m := x;
    } else {
      assert (a + b)[1..] == a[1..] + b;
      var n: Cursor :| Derives(s, a[0], x, n) && DerivesSeq(s, a[1..] + b, n, y);
      m := DerivesParts(s, a[1..], b, n, y);
    }
  }

  // ----- the program up to the loop -----

  /** The code before `at` never leads past it. */
  ghost predicate LeadsTo(p: Program, at: nat) {
    at < |p| && forall pc: nat | pc < at :: StaysBefore(p, at, pc)
  }

  predicate StaysBefore(p: Program, at: nat, pc: nat)
    requires pc < |p|
  {
    match p[pc]
    case Match => false
    case Jmp(target) => target <= at
    case Split(a, b) => a <= at && b <= at
    case _ => true
  }

  /** The program that accepts where `p` would go on at `at`. */
  function Cut(p: Program, at: nat): Program
    requires at <= |p|
  {
    p[..at] + [Match]
  }

  /** Where the loop stands, what is before it and what follows it. */
  lemma {:induction false} LaterLayout(p: Program, prefix: seq<Node>, body: Node, rest: seq<Node>, groups: nat, at: nat, lo: nat)
    requires WellFormed(LaterLoop(prefix, body, rest), groups) && Compiled(p, LaterLoop(prefix, body, rest))
    requires at == 1 + LenSeq(prefix) && lo == at + 2 + Len(body)
    ensures p[0] == Save(0) && SegmentSeq(p, 1, prefix) && SegmentLoop(p, at, body, false) && EndsWith(p, lo, rest)
    ensures at < |p| && p[at] == Split(lo, at + 1)
    ensures AllWellFormed(prefix, groups) && WellFormed(body, groups) && AllWellFormed(rest, groups)
  {
    var nodes := LazyLoop(body, rest).nodes;
    LenParts(prefix, nodes);
    WellFormedParts(prefix, nodes, groups);
    SegmentParts(p, 1, at, prefix, nodes);
    LoopNodesLayout(p, body, rest, groups, at, lo, nodes);
  }

  lemma {:induction false} LoopNodesLayout(p: Program, body: Node, rest: seq<Node>, groups: nat, at: nat, lo: nat, nodes: seq<Node>)
    requires nodes == [Repeat(body, 0, None, false)] + rest && AllWellFormed(nodes, groups) && SegmentSeq(p, at, nodes)
    requires lo == at + 2 + Len(body)
    ensures SegmentLoop(p, at, body, false) && at < |p| && p[at] == Split(lo, at + 1)
    ensures SegmentSeq(p, lo, rest) && LenSeq(nodes) == lo - at + LenSeq(rest)
    ensures WellFormed(body, groups) && AllWellFormed(rest, groups)
  {
    var loop := Repeat(body, 0, None, false);
    assert nodes[0] == loop && nodes[1..] == rest;
    RepeatLength(body);
    assert Segment(p, at, loop) && SegmentSeq(p, lo, rest);
    assert WellFormed(loop, groups);
    RepeatLayout(p, at, body);
  }

  lemma {:induction false} RepeatLength(body: Node)
    ensures Len(Repeat(body, 0, None, false)) == Len(body) + 2
  {
  }

  lemma {:induction false} RepeatLayout(p: Program, at: nat, body: Node)
    requires Segment(p, at, Repeat(body, 0, None, false))
    ensures SegmentLoop(p, at, body, false)
  {
    assert LenCopies(body, 0) == 0 && SegmentTail(p, at, body, None, false);
  }

  lemma {:induction false} PrefixLeads(p: Program, prefix: seq<Node>, groups: nat, at: nat) returns (rank: seq<nat>)
    requires AllWellFormed(prefix, groups) && AllGuarded(prefix) && groups > 0
    requires at == 1 + LenSeq(prefix) < |p| && p[0] == Save(0) && SegmentSeq(p, 1, prefix)
    ensures LeadsTo(p, at) && |rank| == |Cut(p, at)| && RankedFrom(Cut(p, at), rank, 2 * groups, 0)
    ensures SegmentSeq(Cut(p, at), 1, prefix)
  {
    var q, slots := Cut(p, at), 2 * groups;
    SegmentSeqFrame(p, q, 1, prefix);
    var inner := RankSeq(q, seq(|q|, i => 0), slots, groups, 1, prefix);
    rank := inner[0 := inner[1] + 1];
    Rerank(q, inner, rank, slots, 1, at);
    forall pc: nat | pc < |q|
      ensures RankedAt(q, rank, slots, pc) && StaysFrom(q, 0, pc) && (pc < at ==> StaysBefore(p, at, pc))
    {
      if 0 < pc < at {
        assert LocallyRanked(q, rank, slots, 1, at, pc);
      }
    }
  }

  /** A run that fails without coming to the loop fails in the whole program as well. */
  lemma {:induction false} FailureCarries(p: Program, at: nat, s: Text, fuel: nat, pc: nat, pos: nat, saves: Saves, active: set<Key>)
    requires LeadsTo(p, at) && pc <= at && pos <= |s.chars| && Run(Cut(p, at), s, fuel, pc, pos, saves, active) == Failed
    ensures Run(p, s, fuel, pc, pos, saves, active) == Failed
    decreases fuel
  {
    if pc < at {
      assert StaysBefore(p, at, pc) && Cut(p, at)[pc] == p[pc];
      match p[pc]
      case Check(t) =>
        if Passes(t, s, pos) {
          FailureCarries(p, at, s, fuel - 1, pc + 1, pos + Width(t), saves, active);
        }
      case Save(slot) => FailureCarries(p, at, s, fuel - 1, pc + 1, pos, saves[slot := Some(pos)], active);
      case Jmp(target) => FailureCarries(p, at, s, fuel - 1, target, pos, saves, active);
      case Split(a, b) =>
        if (pc, pos) !in active {
          FailureCarries(p, at, s, fuel - 1, a, pos, saves, active + {(pc, pos)});
        }
        FailureCarries(p, at, s, fuel - 1, b, pos, saves, active);
    }
  }

  /** If the loop never fails, a run of the whole program can fail only before it comes to it. */
  lemma {:induction false} FailureIsEarly(p: Program, at: nat, body: Node, s: Text, fuel: nat, pc: nat, pos: nat, saves: Saves,
                                          active: set<Key>)
    requires LeadsTo(p, at) && SegmentLoop(p, at, body, false) && FallsFreely(body)
    requires pc <= at && pos <= |s.chars| && Run(p, s, fuel, pc, pos, saves, active) == Failed
    ensures Run(Cut(p, at), s, fuel, pc, pos, saves, active) == Failed
    decreases fuel
  {
    if pc == at {
      FallsEverywhere(s, body, pos);
      LazyLoopNeverFails(p, s, fuel, at, body, pos, saves, active);
    } else {
      assert StaysBefore(p, at, pc) && Cut(p, at)[pc] == p[pc];
      match p[pc]
      case Check(t) =>
        if Passes(t, s, pos) {
          FailureIsEarly(p, at, body, s, fuel - 1, pc + 1, pos + Width(t), saves, active);
        }
      case Save(slot) => FailureIsEarly(p, at, body, s, fuel - 1, pc + 1, pos, saves[slot := Some(pos)], active);
      case Jmp(target) => FailureIsEarly(p, at, body, s, fuel - 1, target, pos, saves, active);
      case Split(a, b) =>
        if (pc, pos) !in active {
          FailureIsEarly(p, at, body, s, fuel - 1, a, pos, saves, active + {(pc, pos)});
        }
        FailureIsEarly(p, at, body, s, fuel - 1, b, pos, saves, active);
    }
  }

  // ----- where the rest need not consume -----

  /** The loop, wherever the executor comes to it, is left at once and for good. */
  lemma {:induction false} ArrivalMatches(p: Program, s: Text, rest: seq<Node>, groups: nat, at: nat, lo: nat, pos: nat,
                                          saves: Saves, active: set<Key>)
    returns (fuel: nat)
    requires at < lo <= |p| && p[at] == Split(lo, at + 1) && EndsWith(p, lo, rest) && groups > 0
    requires AllWellFormed(rest, groups) && AllGuarded(rest) && AllTestFree(rest) && !SomeMustConsume(rest)
    requires pos <= |s.chars| && |saves| == 2 * groups && forall key <- active :: key.0 < at
    ensures Run(p, s, fuel, at, pos, saves, active).Matched?
  {
    var x := Cursor(pos, saves);
    var y := EmptySeqDerives(s, rest, groups, x);
    var n := EndAccepts(p, s, lo, rest, groups, x, y);
    var m := EndSucceeds(p, s, lo, rest, groups, n, pos, saves, active + {(at, pos)});
    assert (at, pos) !in active;
    fuel := m + 1;
  }

  /** A run that comes to such a loop matches. */
  lemma {:induction false} MatchCarries(p: Program, s: Text, rest: seq<Node>, groups: nat, at: nat, lo: nat, fuel: nat,
                                        pc: nat, pos: nat, saves: Saves, active: set<Key>)
    returns (n: nat)
    requires LeadsTo(p, at) && at < lo <= |p| && p[at] == Split(lo, at + 1) && EndsWith(p, lo, rest) && groups > 0
    requires AllWellFormed(rest, groups) && AllGuarded(rest) && AllTestFree(rest) && !SomeMustConsume(rest)
    requires pc <= at && pos <= |s.chars| && |saves| == 2 * groups && forall key <- active :: key.0 < at
    requires Run(Cut(p, at), s, fuel, pc, pos, saves, active).Matched?
    ensures Run(p, s, n, pc, pos, saves, active).Matched?
    decreases fuel
  {
    if pc == at {
      n := ArrivalMatches(p, s, rest, groups, at, lo, pos, saves, active);
    } else {
      assert StaysBefore(p, at, pc) && Cut(p, at)[pc] == p[pc];
      match p[pc]
      case Check(t) =>
        n := MatchCarries(p, s, rest, groups, at, lo, fuel - 1, pc + 1, pos + Width(t), saves, active);
        n := n + 1;
      case Save(slot) =>
        n := MatchCarries(p, s, rest, groups, at, lo, fuel - 1, pc + 1, pos, saves[slot := Some(pos)], active);
        n := n + 1;
      case Jmp(target) =>
        n := MatchCarries(p, s, rest, groups, at, lo, fuel - 1, target, pos, saves, active);
        n := n + 1;
      case Split(a, b) => n := SplitMatchCarries(p, s, rest, groups, at, lo, fuel, pc, pos, saves, active);
    }
  }

  lemma {:induction false} SplitMatchCarries(p: Program, s: Text, rest: seq<Node>, groups: nat, at: nat, lo: nat, fuel: nat,
                                             pc: nat, pos: nat, saves: Saves, active: set<Key>)
    returns (n: nat)
    requires LeadsTo(p, at) && at < lo <= |p| && p[at] == Split(lo, at + 1) && EndsWith(p, lo, rest) && groups > 0
    requires AllWellFormed(rest, groups) && AllGuarded(rest) && AllTestFree(rest) && !SomeMustConsume(rest)
    requires pc < at && pos <= |s.chars| && |saves| == 2 * groups && forall key <- active :: key.0 < at
    requires p[pc].Split? && fuel > 0 && Run(Cut(p, at), s, fuel, pc, pos, saves, active).Matched?
    ensures Run(p, s, n, pc, pos, saves, active).Matched?
    decreases fuel, 0
  {
    assert StaysBefore(p, at, pc) && Cut(p, at)[pc] == p[pc];
    var Split(a, b) := p[pc];
    var entered := active + {(pc, pos)};
    if (pc, pos) in active {
      n := MatchCarries(p, s, rest, groups, at, lo, fuel - 1, b, pos, saves, active);
    } else if Run(Cut(p, at), s, fuel - 1, a, pos, saves, entered).Matched? {
      n := MatchCarries(p, s, rest, groups, at, lo, fuel - 1, a, pos, saves, entered);
    } else {
      FailureCarries(p, at, s, fuel - 1, a, pos, saves, entered);
      n := MatchCarries(p, s, rest, groups, at, lo, fuel - 1, b, pos, saves, active);
      RunMonotone(p, s, n, n + fuel, b, pos, saves, active);
      RunMonotone(p, s, fuel - 1, n + fuel, a, pos, saves, entered);
      n := n + fuel;
    }
    n := n + 1;
  }

  lemma {:induction false} NothingRequiredLaterHalts(p: Program, s: Text, prefix: seq<Node>, body: Node, rest: seq<Node>, groups: nat,
                                                     pos: nat, saves: Saves)
    requires WellFormed(LaterLoop(prefix, body, rest), groups) && Compiled(p, LaterLoop(prefix, body, rest)) && groups > 0
    requires AllGuarded(prefix) && AllGuarded(rest) && AllTestFree(rest) && !SomeMustConsume(rest)
    requires pos <= |s.chars| && |saves| == 2 * groups
    ensures HaltsAt(p, s, pos, saves)
  {
    var at, lo := 1 + LenSeq(prefix), 3 + LenSeq(prefix) + Len(body);
    LaterLayout(p, prefix, body, rest, groups, at, lo);
    var rank := PrefixLeads(p, prefix, groups, at);
    var fuel := RankedHalts(Cut(p, at), s, rank, 0, 0, pos, saves, {});
    if Run(Cut(p, at), s, fuel, 0, pos, saves, {}) == Failed {
      FailureCarries(p, at, s, fuel, 0, pos, saves, {});
    } else {
      var n := MatchCarries(p, s, rest, groups, at, lo, fuel, 0, pos, saves, {});
    }
  }

  // ----- where the prefix matches nothing -----

  /** Some text has a match of these nodes. */
  ghost predicate SomewhereMatches(nodes: seq<Node>, groups: nat) {
    exists s: Text, pos: nat, saves: Saves ::
      pos <= |s.chars| && |saves| == 2 * groups && MatchesAt(s, Concat(nodes), pos, saves)
  }

  lemma {:induction false} NothingReachedHalts(p: Program, s: Text, prefix: seq<Node>, body: Node, rest: seq<Node>, groups: nat,
                                               pos: nat, saves: Saves)
    requires WellFormed(LaterLoop(prefix, body, rest), groups) && Compiled(p, LaterLoop(prefix, body, rest)) && groups > 0
    requires AllGuarded(prefix) && pos <= |s.chars| && |saves| == 2 * groups && !MatchesAt(s, Concat(prefix), pos, saves)
    ensures HaltsAt(p, s, pos, saves)
  {
    var at, lo := 1 + LenSeq(prefix), 3 + LenSeq(prefix) + Len(body);
    LaterLayout(p, prefix, body, rest, groups, at, lo);
    var rank := PrefixLeads(p, prefix, groups, at);
    var q, x := Cut(p, at), Cursor(pos, saves);
    var fuel := RankedHalts(q, s, rank, 0, 0, pos, saves, {});
    var r := Run(q, s, fuel, 0, pos, saves, {});
    if r.Matched? {
      RunReaches(q, s, fuel, 0, x, {});
      var y := PathDerivesSeq(q, s, groups, fuel - 1, 1, prefix, x.Record(0), r.saves);
      assert Derives(s, Concat(prefix), x.Record(0), y);
      assert false;
    }
    FailureCarries(p, at, s, fuel, 0, pos, saves, {});
  }

  // ----- where the prefix matches and the rest must consume -----

  /** Where the prefix matches, the whole pattern never fails. */
  lemma {:induction false} ReachedNeverFails(p: Program, s: Text, prefix: seq<Node>, body: Node, rest: seq<Node>, groups: nat,
                                             fuel: nat, pos: nat, saves: Saves, y: Cursor)
    requires WellFormed(LaterLoop(prefix, body, rest), groups) && Compiled(p, LaterLoop(prefix, body, rest)) && groups > 0
    requires AllGuarded(prefix) && FallsFreely(body) && pos <= |s.chars| && |saves| == 2 * groups
    requires DerivesSeq(s, prefix, Cursor(pos, saves).Record(0), y)
    ensures Run(p, s, fuel, 0, pos, saves, {}) != Failed
  {
    if Run(p, s, fuel, 0, pos, saves, {}) == Failed {
      var at, lo := 1 + LenSeq(prefix), 3 + LenSeq(prefix) + Len(body);
      LaterLayout(p, prefix, body, rest, groups, at, lo);
      var rank := PrefixLeads(p, prefix, groups, at);
      var q := Cut(p, at);
      FailureIsEarly(p, at, body, s, fuel, 0, pos, saves, {});
      SeqIsSound(s, prefix, groups, Cursor(pos, saves).Record(0), y);
      assert Accepts(q, s, 1, at, y.pos, {});
      var n := SeqAccepts(q, s, groups, 1, 1, prefix, Cursor(pos, saves).Record(0), y);
      assert Accepts(q, s, n + 1, 0, pos, {});
      GuardLosesNothing(q, s, fuel, n + 1, 0, pos, saves, {});
    }
  }

  /** The text up to `k`. */
  function Shorter(s: Text, k: nat): Text
    requires k <= |s.chars|
  {
    s.(chars := s.chars[..k])
  }

  /** What test-free nodes match does not depend on the text after it. */
  lemma {:induction false} ShorterDerives(s: Text, k: nat, node: Node, groups: nat, x: Cursor, y: Cursor)
    requires TestFree(node) && WellFormed(node, groups) && |x.saves| == 2 * groups && y.pos <= k <= |s.chars|
    requires Derives(s, node, x, y)
    ensures Derives(Shorter(s, k), node, x, y)
    decreases node, 0
  {
    match node
    case Empty =>
    case Atom(_) =>
    case Concat(nodes) => ShorterSeq(s, k, nodes, groups, x, y);
    case Alt(branches) => ShorterAlt(s, k, branches, groups, x, y);
    case Repeat(n, min, max, _) =>
      var i: nat :| min <= i && (max.Some? ==> i <= max.value) && DerivesTimes(s, n, i, x, y);
      ShorterTimes(s, k, n, groups, i, x, y);
    case Group(None, n) => ShorterDerives(s, k, n, groups, x, y);
    case Group(Some(g), n) =>
      var m: Cursor :| Derives(s, n, x.Record(2 * g), m) && y == m.Record(2 * g + 1);
      ShorterDerives(s, k, n, groups, x.Record(2 * g), m);
  }

  lemma {:induction false} ShorterSeq(s: Text, k: nat, nodes: seq<Node>, groups: nat, x: Cursor, y: Cursor)
    requires AllTestFree(nodes) && AllWellFormed(nodes, groups) && |x.saves| == 2 * groups && y.pos <= k <= |s.chars|
    requires DerivesSeq(s, nodes, x, y)
    ensures DerivesSeq(Shorter(s, k), nodes, x, y)
    decreases nodes, 0
  {
    if nodes != [] {
      var m: Cursor :| Derives(s, nodes[0], x, m) && DerivesSeq(s, nodes[1..], m, y);
      DerivationIsSound(s, nodes[0], groups, x, m);
      SeqIsSound(s, nodes[1..], groups, m, y);
      ShorterDerives(s, k, nodes[0], groups, x, m);
      ShorterSeq(s, k, nodes[1..], groups, m, y);
    }
  }

  lemma {:induction false} ShorterAlt(s: Text, k: nat, branches: seq<Node>, groups: nat, x: Cursor, y: Cursor)
    requires AllTestFree(branches) && AllWellFormed(branches, groups) && |x.saves| == 2 * groups && y.pos <= k <= |s.chars|
    requires DerivesAlt(s, branches, x, y)
    ensures DerivesAlt(Shorter(s, k), branches, x, y)
    decreases branches, 0
  {
    if Derives(s, branches[0], x, y) {
      ShorterDerives(s, k, branches[0], groups, x, y);
    } else {
      ShorterAlt(s, k, branches[1..], groups, x, y);
    }
  }

  lemma {:induction false} ShorterTimes(s: Text, k: nat, node: Node, groups: nat, i: nat, x: Cursor, y: Cursor)
    requires TestFree(node) && WellFormed(node, groups) && |x.saves| == 2 * groups && y.pos <= k <= |s.chars|
    requires DerivesTimes(s, node, i, x, y)
    ensures DerivesTimes(Shorter(s, k), node, i, x, y)
    decreases node, i + 1
  {
    if i > 0 {
      var m: Cursor :| Derives(s, node, x, m) && DerivesTimes(s, node, i - 1, m, y);
      DerivationIsSound(s, node, groups, x, m);
      TimesIsSound(s, node, groups, i - 1, m, y);
      ShorterDerives(s, k, node, groups, x, m);
      ShorterTimes(s, k, node, groups, i - 1, m, y);
    }
  }

  /** The nodes match to the end of the text from `x`, and no less. */
  ghost predicate OnlyWhole(s: Text, nodes: seq<Node>, x: Cursor) {
    x.pos <= |s.chars| && forall y: Cursor :: DerivesSeq(s, nodes, x, y) ==> y.pos == |s.chars|
  }

  lemma {:induction false} ShortestText(s: Text, nodes: seq<Node>, groups: nat, x: Cursor, y: Cursor) returns (t: Text, z: Cursor)
    requires AllTestFree(nodes) && AllWellFormed(nodes, groups) && |x.saves| == 2 * groups && x.pos <= |s.chars|
    requires DerivesSeq(s, nodes, x, y)
    ensures OnlyWhole(t, nodes, x) && DerivesSeq(t, nodes, x, z)
    decreases y.pos
  {
    SeqIsSound(s, nodes, groups, x, y);
    t, z := Shorter(s, y.pos), y;
    ShorterSeq(s, y.pos, nodes, groups, x, y);
    if !OnlyWhole(t, nodes, x) {
      var w: Cursor :| DerivesSeq(t, nodes, x, w) && w.pos != |t.chars|;
      SeqIsSound(t, nodes, groups, x, w);
      t, z := ShortestText(t, nodes, groups, x, w);
    }
  }

  lemma {:induction false} NoLaterMatch(s: Text, prefix: seq<Node>, body: Node, rest: seq<Node>, groups: nat, pos: nat, saves: Saves)
    requires WellFormed(LaterLoop(prefix, body, rest), groups) && |saves| == 2 * groups && SomeMustConsume(rest)
    requires AllWellFormed(prefix, groups) && WellFormed(body, groups) && AllWellFormed(rest, groups)
    requires OnlyWhole(s, prefix, Cursor(pos, saves).Record(0))
    ensures !MatchesAt(s, LaterLoop(prefix, body, rest), pos, saves)
  {
    var x := Cursor(pos, saves).Record(0);
    if MatchesAt(s, LaterLoop(prefix, body, rest), pos, saves) {
      var y: Cursor :| Derives(s, LaterLoop(prefix, body, rest), x, y);
      var m := DerivesParts(s, prefix, LazyLoop(body, rest).nodes, x, y);
      SeqIsSound(s, prefix, groups, x, m);
      assert Derives(s, LazyLoop(body, rest), m, y);
      var k, n := LoopDerives(s, body, rest, m, y);
      TimesIsSound(s, body, groups, k, m, n);
      SeqAdvances(s, rest, groups, n, y);
    }
  }

  /** Where the prefix matches and the whole pattern does not, the executor runs for ever. */
  lemma {:induction false} ReachedDiverges(p: Program, s: Text, prefix: seq<Node>, body: Node, rest: seq<Node>, groups: nat,
                                           pos: nat, saves: Saves, y: Cursor)
    requires WellFormed(LaterLoop(prefix, body, rest), groups) && Compiled(p, LaterLoop(prefix, body, rest)) && groups > 0
    requires AllGuarded(prefix) && FallsFreely(body) && pos <= |s.chars| && |saves| == 2 * groups
    requires DerivesSeq(s, prefix, Cursor(pos, saves).Record(0), y) && !MatchesAt(s, LaterLoop(prefix, body, rest), pos, saves)
    ensures !HaltsAt(p, s, pos, saves)
  {
    if HaltsAt(p, s, pos, saves) {
      var fuel: nat :| Run(p, s, fuel, 0, pos, saves, {}) != Unfinished;
      RunDecidesLanguage(p, s, LaterLoop(prefix, body, rest), groups, fuel, pos, saves);
      ReachedNeverFails(p, s, prefix, body, rest, groups, fuel, pos, saves, y);
    }
  }

  lemma {:induction false} SomewhereDiverges(p: Program, prefix: seq<Node>, body: Node, rest: seq<Node>, groups: nat)
    requires WellFormed(LaterLoop(prefix, body, rest), groups) && Compiled(p, LaterLoop(prefix, body, rest)) && groups > 0
    requires AllGuarded(prefix) && AllTestFree(prefix) && FallsFreely(body) && SomeMustConsume(rest)
    requires SomewhereMatches(prefix, groups)
    ensures !AlwaysHalts(p, groups)
  {
    LaterLayout(p, prefix, body, rest, groups, 1 + LenSeq(prefix), 3 + LenSeq(prefix) + Len(body));
    var t, pos, saves, z := ReachedText(prefix, groups);
    NoLaterMatch(t, prefix, body, rest, groups, pos, saves);
    ReachedDiverges(p, t, prefix, body, rest, groups, pos, saves, z);
  }

  /** A text that the prefix can only match as a whole. */
  lemma {:induction false} ReachedText(prefix: seq<Node>, groups: nat) returns (t: Text, pos: nat, saves: Saves, z: Cursor)
    requires AllTestFree(prefix) && AllWellFormed(prefix, groups) && SomewhereMatches(prefix, groups)
    ensures pos <= |t.chars| && |saves| == 2 * groups
    ensures OnlyWhole(t, prefix, Cursor(pos, saves).Record(0)) && DerivesSeq(t, prefix, Cursor(pos, saves).Record(0), z)
  {
    var s: Text;
    s, pos, saves :| pos <= |s.chars| && |saves| == 2 * groups && MatchesAt(s, Concat(prefix), pos, saves);
    var x := Cursor(pos, saves).Record(0);
    var y: Cursor :| Derives(s, Concat(prefix), x, y);
    assert DerivesSeq(s, prefix, x, y);
    t, z := ShortestText(s, prefix, groups, x, y);
    SeqIsSound(t, prefix, groups, x, z);
  }

  /** A lazy loop over a body that can be fallen through, between guarded, test-free nodes: the
      executor halts on every text from every position exactly when what follows the loop need not
      consume a character, or what precedes it matches nothing anywhere. */
  lemma {:induction false} LaterLoopHaltsIff(p: Program, prefix: seq<Node>, body: Node, rest: seq<Node>, groups: nat)
    requires WellFormed(LaterLoop(prefix, body, rest), groups) && Compiled(p, LaterLoop(prefix, body, rest)) && groups > 0
    requires AllGuarded(prefix) && AllTestFree(prefix) && FallsFreely(body) && AllGuarded(rest) && AllTestFree(rest)
    ensures AlwaysHalts(p, groups) <==> !SomeMustConsume(rest) || !SomewhereMatches(prefix, groups)
  {
    if SomeMustConsume(rest) && SomewhereMatches(prefix, groups) {
      SomewhereDiverges(p, prefix, body, rest, groups);
    } else {
      forall s: Text, pos: nat, saves: Saves | pos <= |s.chars| && |saves| == 2 * groups
        ensures HaltsAt(p, s, pos, saves)
      {
        if SomeMustConsume(rest) {
          NothingReachedHalts(p, s, prefix, body, rest, groups, pos, saves);
        } else {
          NothingRequiredLaterHalts(p, s, prefix, body, rest, groups, pos, saves);
        }
      }
    }
  }

  /** At the start of a pattern: it halts everywhere exactly when what follows the loop need not
      consume a character. */
  lemma {:induction false} LazyLoopHaltsIff(p: Program, body: Node, rest: seq<Node>, groups: nat)
    requires WellFormed(LazyLoop(body, rest), groups) && Compiled(p, LazyLoop(body, rest)) && groups > 0
    requires FallsFreely(body) && AllGuarded(rest) && AllTestFree(rest)
    ensures AlwaysHalts(p, groups) <==> !SomeMustConsume(rest)
  {
    assert LaterLoop([], body, rest) == LazyLoop(body, rest);
    LaterLoopHaltsIff(p, [], body, rest, groups);
    var s, x := Text("", {}), Cursor(0, Blank(groups)).Record(0);
    assert DerivesSeq(s, [], x, x) && Derives(s, Concat([]), x, x);
    assert MatchesAt(s, Concat([]), 0, Blank(groups));
  }
}
