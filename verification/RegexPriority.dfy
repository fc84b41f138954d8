/** The executor returns the first result of ordered backtracking, captures included. */
module RegexPriority {
  import opened Options
  import opened RegexSyntax
  import opened RegexProgram
  import opened RegexCompiler
  import opened RegexExec
  import opened RegexLanguage
  import opened RegexOrdered

  /** The executor without its guard. */
  ghost function Backtrack(p: Program, s: Text, fuel: nat, pc: nat, x: Cursor): Outcome {
    if fuel == 0 || pc >= |p| || x.pos > |s.chars| then Unfinished
    else
      match p[pc]
      case Match => Matched(x.saves)
      case Check(t) =>
        if Passes(t, s, x.pos) then Backtrack(p, s, fuel - 1, pc + 1, Cursor(x.pos + Width(t), x.saves)) else Failed
      case Save(slot) => if slot < |x.saves| then Backtrack(p, s, fuel - 1, pc + 1, x.Record(slot)) else Unfinished
      case Jmp(target) => Backtrack(p, s, fuel - 1, target, x)
      case Split(a, b) =>
        var first := Backtrack(p, s, fuel - 1, a, x);
        if first == Failed then Backtrack(p, s, fuel - 1, b, x) else first
  }

  lemma {:induction false} BacktrackMonotone(p: Program, s: Text, f: nat, g: nat, pc: nat, x: Cursor)
    requires f <= g && Backtrack(p, s, f, pc, x) != Unfinished
    ensures Backtrack(p, s, g, pc, x) == Backtrack(p, s, f, pc, x)
    decreases f
  {
    match p[pc]
    case Match =>
    case Check(t) =>
      if Passes(t, s, x.pos) {
        BacktrackMonotone(p, s, f - 1, g - 1, pc + 1, Cursor(x.pos + Width(t), x.saves));
      }
    case Save(slot) => BacktrackMonotone(p, s, f - 1, g - 1, pc + 1, x.Record(slot));
    case Jmp(target) => BacktrackMonotone(p, s, f - 1, g - 1, target, x);
    case Split(a, b) =>
      BacktrackMonotone(p, s, f - 1, g - 1, a, x);
      if Backtrack(p, s, f - 1, a, x) == Failed {
        BacktrackMonotone(p, s, f - 1, g - 1, b, x);
      }
  }

  /** Control flow does not depend on the captures. */
  ghost predicate SameFate(a: Outcome, b: Outcome) {
    (a.Unfinished? <==> b.Unfinished?) && (a.Failed? <==> b.Failed?)
  }

  lemma {:induction false} FateIgnoresSaves(p: Program, s: Text, fuel: nat, pc: nat, x: Cursor, y: Cursor)
    requires x.pos == y.pos && |x.saves| == |y.saves|
    ensures SameFate(Backtrack(p, s, fuel, pc, x), Backtrack(p, s, fuel, pc, y))
    decreases fuel
  {
    if fuel > 0 && pc < |p| && x.pos <= |s.chars| {
      match p[pc]
      case Match =>
      case Check(t) =>
        FateIgnoresSaves(p, s, fuel - 1, pc + 1, Cursor(x.pos + Width(t), x.saves), Cursor(y.pos + Width(t), y.saves));
      case Save(slot) => FateIgnoresSaves(p, s, fuel - 1, pc + 1, x.Record(slot), y.Record(slot));
      case Jmp(target) => FateIgnoresSaves(p, s, fuel - 1, target, x, y);
      case Split(a, b) =>
        FateIgnoresSaves(p, s, fuel - 1, a, x, y);
        FateIgnoresSaves(p, s, fuel - 1, b, x, y);
    }
  }

  /** No active split would finish within `fuel` steps if it were entered. */
  ghost predicate Hopeless(p: Program, s: Text, fuel: nat, active: set<Key>, slots: nat) {
    forall key: Key, saves: Saves | key in active && |saves| == slots ::
      Backtrack(p, s, fuel, key.0, Cursor(key.1, saves)) == Unfinished
  }

  /** Where unguarded backtracking finishes, the guard changes nothing: re-entering an active split
      would repeat the same search for ever. */
  lemma {:induction false} GuardIsIdle(p: Program, s: Text, fuel: nat, pc: nat, x: Cursor, active: set<Key>)
    requires Backtrack(p, s, fuel, pc, x) != Unfinished && Hopeless(p, s, fuel, active, |x.saves|)
    ensures x.pos <= |s.chars|
    ensures Run(p, s, fuel, pc, x.pos, x.saves, active) == Backtrack(p, s, fuel, pc, x)
    decreases fuel
  {
    forall key: Key, saves: Saves | key in active && |saves| == |x.saves|
      ensures Backtrack(p, s, fuel - 1, key.0, Cursor(key.1, saves)) == Unfinished
    {
      if Backtrack(p, s, fuel - 1, key.0, Cursor(key.1, saves)) != Unfinished {
        BacktrackMonotone(p, s, fuel - 1, fuel, key.0, Cursor(key.1, saves));
      }
    }
    match p[pc]
    case Match =>
    case Check(t) =>
      if Passes(t, s, x.pos) {
        GuardIsIdle(p, s, fuel - 1, pc + 1, Cursor(x.pos + Width(t), x.saves), active);
      }
    case Save(slot) => GuardIsIdle(p, s, fuel - 1, pc + 1, x.Record(slot), active);
    case Jmp(target) => GuardIsIdle(p, s, fuel - 1, target, x, active);
    case Split(a, b) =>
      if Backtrack(p, s, fuel - 1, pc, x) != Unfinished {
        GuardIsIdle(p, s, fuel - 1, pc, x, active);
        RunMonotone(p, s, fuel - 1, fuel, pc, x.pos, x.saves, active);
        BacktrackMonotone(p, s, fuel - 1, fuel, pc, x);
      } else {
        var key := (pc, x.pos);
        assert Cursor(x.pos, x.saves) == x;
        assert key !in active;
        forall saves: Saves | |saves| == |x.saves|
          ensures Backtrack(p, s, fuel - 1, key.0, Cursor(key.1, saves)) == Unfinished
        {
          FateIgnoresSaves(p, s, fuel - 1, pc, x, Cursor(x.pos, saves));
        }
        GuardIsIdle(p, s, fuel - 1, a, x, active + {key});
        if Backtrack(p, s, fuel - 1, a, x) == Failed {
          GuardIsIdle(p, s, fuel - 1, b, x, active);
        }
      }
  }

  /** The first of `ys` from which the rest of the program succeeds decides. */
  ghost function FirstOf(p: Program, s: Text, fuel: nat, pc: nat, ys: seq<Cursor>): Outcome {
    if ys == [] then Failed
    else
      var r := Backtrack(p, s, fuel, pc, ys[0]);
      if r == Failed then FirstOf(p, s, fuel, pc, ys[1..]) else r
  }

  lemma {:induction false} FirstOfMonotone(p: Program, s: Text, f: nat, g: nat, pc: nat, ys: seq<Cursor>)
    requires f <= g && FirstOf(p, s, f, pc, ys) != Unfinished
    ensures FirstOf(p, s, g, pc, ys) == FirstOf(p, s, f, pc, ys)
    decreases |ys|
  {
    if ys != [] {
      BacktrackMonotone(p, s, f, g, pc, ys[0]);
      if Backtrack(p, s, f, pc, ys[0]) == Failed {
        FirstOfMonotone(p, s, f, g, pc, ys[1..]);
      }
    }
  }

  lemma {:induction false} FirstOfAppend(p: Program, s: Text, fuel: nat, pc: nat, xs: seq<Cursor>, ys: seq<Cursor>)
    ensures FirstOf(p, s, fuel, pc, xs + ys)
         == if FirstOf(p, s, fuel, pc, xs) == Failed then FirstOf(p, s, fuel, pc, ys) else FirstOf(p, s, fuel, pc, xs)
    decreases |xs|
  {
    if xs == [] {
      assert xs + ys == ys;
    } else {
      assert (xs + ys)[1..] == xs[1..] + ys;
      FirstOfAppend(p, s, fuel, pc, xs[1..], ys);
    }
  }

  /** A cursor the executor can be in. */
  ghost predicate InText(s: Text, groups: nat, x: Cursor) {
    x.pos <= |s.chars| && |x.saves| == 2 * groups
  }

  lemma {:induction false} ResultsInText(s: Text, node: Node, groups: nat, x: Cursor)
    requires WellFormed(node, groups) && InText(s, groups, x)
    ensures forall y <- Results(s, node, x) :: InText(s, groups, y)
  {
    forall y | y in Results(s, node, x)
      ensures InText(s, groups, y)
    {
      ResultDerives(s, node, groups, x, y);
      DerivationIsSound(s, node, groups, x, y);
    }
  }

  lemma {:induction false} AdvancingAll(s: Text, ys: seq<Cursor>, from: nat)
    requires forall y <- ys :: from < y.pos <= |s.chars|
    ensures Advancing(s, ys, from) == ys
    decreases |ys|
  {
    if ys != [] {
      AdvancingAll(s, ys[1..], from);
    }
  }

  lemma {:induction false} JmpFirst(p: Program, s: Text, fuel: nat, pc: nat, ys: seq<Cursor>)
    requires pc < |p| && p[pc].Jmp? && forall y <- ys :: y.pos <= |s.chars|
    ensures FirstOf(p, s, fuel + 1, pc, ys) == FirstOf(p, s, fuel, p[pc].target, ys)
    decreases |ys|
  {
    if ys != [] {
      JmpFirst(p, s, fuel, pc, ys[1..]);
    }
  }

  lemma {:induction false} RecordFirst(p: Program, s: Text, groups: nat, fuel: nat, pc: nat, ys: seq<Cursor>, slot: nat)
    requires pc < |p| && p[pc] == Save(slot) && slot < 2 * groups && forall y <- ys :: InText(s, groups, y)
    ensures FirstOf(p, s, fuel + 1, pc, ys) == FirstOf(p, s, fuel, pc + 1, RecordEach(ys, slot))
    decreases |ys|
  {
    if ys != [] {
      assert RecordEach(ys, slot)[1..] == RecordEach(ys[1..], slot);
      assert InText(s, groups, ys[0]);
      assert Backtrack(p, s, fuel + 1, pc, ys[0]) == Backtrack(p, s, fuel, pc + 1, ys[0].Record(slot));
      RecordFirst(p, s, groups, fuel, pc, ys[1..], slot);
    }
  }

  /** Running a node's code is trying its results in order on what follows. */
  lemma {:induction false} NodeFirst(p: Program, s: Text, groups: nat, fuel: nat, lo: nat, node: Node, x: Cursor)
    returns (n: nat)
    requires Segment(p, lo, node) && WellFormed(node, groups) && LoopsConsume(node) && InText(s, groups, x)
    requires FirstOf(p, s, fuel, lo + Len(node), Results(s, node, x)) != Unfinished
    ensures Backtrack(p, s, n, lo, x) == FirstOf(p, s, fuel, lo + Len(node), Results(s, node, x))
    decreases node, 0
  {
    match node
    case Empty => n := fuel;
    case Atom(_) => n := fuel + 1;
    case Concat(nodes) =>
      assert SegmentSeq(p, lo, nodes);
      n := SeqFirst(p, s, groups, fuel, lo, nodes, x);
    case Alt(branches) =>
      assert SegmentAlt(p, lo, branches);
      n := AltFirst(p, s, groups, fuel, lo, branches, x);
    case Repeat(node, min, max, greedy) => n := RepeatFirst(p, s, groups, fuel, lo, node, min, Extra(min, max), greedy, x);
    case Group(None, node) =>
      assert Segment(p, lo, node);
      n := NodeFirst(p, s, groups, fuel, lo, node, x);
    case Group(Some(index), node) =>
      assert Segment(p, lo + 1, node);
      n := GroupFirst(p, s, groups, fuel, lo, node, 2 * index, x);
  }

  lemma {:induction false} GroupFirst(p: Program, s: Text, groups: nat, fuel: nat, lo: nat, node: Node, slot: nat, x: Cursor)
    returns (n: nat)
    requires lo + Len(node) + 2 <= |p| && p[lo] == Save(slot) && p[lo + 1 + Len(node)] == Save(slot + 1)
    requires Segment(p, lo + 1, node) && WellFormed(node, groups) && LoopsConsume(node)
    requires InText(s, groups, x) && slot + 1 < 2 * groups
    requires FirstOf(p, s, fuel, lo + Len(node) + 2, RecordEach(Results(s, node, x.Record(slot)), slot + 1)) != Unfinished
    ensures Backtrack(p, s, n, lo, x)
         == FirstOf(p, s, fuel, lo + Len(node) + 2, RecordEach(Results(s, node, x.Record(slot)), slot + 1))
    decreases node, 2
  {
    ResultsInText(s, node, groups, x.Record(slot));
    RecordFirst(p, s, groups, fuel, lo + 1 + Len(node), Results(s, node, x.Record(slot)), slot + 1);
    n := NodeFirst(p, s, groups, fuel + 1, lo + 1, node, x.Record(slot));
    n := n + 1;
  }

  lemma {:induction false} SeqFirst(p: Program, s: Text, groups: nat, fuel: nat, lo: nat, nodes: seq<Node>, x: Cursor)
    returns (n: nat)
    requires SegmentSeq(p, lo, nodes) && AllWellFormed(nodes, groups) && AllLoopsConsume(nodes) && InText(s, groups, x)
    requires FirstOf(p, s, fuel, lo + LenSeq(nodes), ResultsSeq(s, nodes, x)) != Unfinished
    ensures Backtrack(p, s, n, lo, x) == FirstOf(p, s, fuel, lo + LenSeq(nodes), ResultsSeq(s, nodes, x))
    decreases nodes, 0
  {
    if nodes == [] {
      n := fuel;
    } else {
      ResultsInText(s, nodes[0], groups, x);
      n := ThenSeqFirst(p, s, groups, fuel, lo + Len(nodes[0]), Results(s, nodes[0], x), nodes[1..]);
      n := NodeFirst(p, s, groups, n, lo, nodes[0], x);
    }
  }

  lemma {:induction false} ThenSeqFirst(p: Program, s: Text, groups: nat, fuel: nat, lo: nat, ys: seq<Cursor>, nodes: seq<Node>)
    returns (n: nat)
    requires SegmentSeq(p, lo, nodes) && AllWellFormed(nodes, groups) && AllLoopsConsume(nodes)
    requires forall y <- ys :: InText(s, groups, y)
    requires FirstOf(p, s, fuel, lo + LenSeq(nodes), ThenSeq(s, ys, nodes)) != Unfinished
    ensures FirstOf(p, s, n, lo, ys) == FirstOf(p, s, fuel, lo + LenSeq(nodes), ThenSeq(s, ys, nodes))
    decreases nodes, 1, |ys|
  {
    n := 0;
    if ys != [] {
      var hi := lo + LenSeq(nodes);
      FirstOfAppend(p, s, fuel, hi, ResultsSeq(s, nodes, ys[0]), ThenSeq(s, ys[1..], nodes));
      n := SeqFirst(p, s, groups, fuel, lo, nodes, ys[0]);
      if Backtrack(p, s, n, lo, ys[0]) == Failed {
        var m := ThenSeqFirst(p, s, groups, fuel, lo, ys[1..], nodes);
        BacktrackMonotone(p, s, n, n + m, lo, ys[0]);
        FirstOfMonotone(p, s, m, n + m, lo, ys[1..]);
        n := n + m;
      }
    }
  }

  lemma {:induction false} AltFirst(p: Program, s: Text, groups: nat, fuel: nat, lo: nat, branches: seq<Node>, x: Cursor)
    returns (n: nat)
    requires SegmentAlt(p, lo, branches) && branches != [] && InText(s, groups, x)
    requires AllWellFormed(branches, groups) && AllLoopsConsume(branches)
    requires FirstOf(p, s, fuel, lo + LenAlt(branches), ResultsAlt(s, branches, x)) != Unfinished
    ensures Backtrack(p, s, n, lo, x) == FirstOf(p, s, fuel, lo + LenAlt(branches), ResultsAlt(s, branches, x))
    decreases branches, 0
  {
    var ys, rest := Results(s, branches[0], x), ResultsAlt(s, branches[1..], x);
    var end := lo + LenAlt(branches);
    FirstOfAppend(p, s, fuel, end, ys, rest);
    if |branches| == 1 {
      assert rest == [];
      n := NodeFirst(p, s, groups, fuel, lo, branches[0], x);
    } else {
      var jmp := lo + 1 + Len(branches[0]);
      ResultsInText(s, branches[0], groups, x);
      JmpFirst(p, s, fuel, jmp, ys);
      n := NodeFirst(p, s, groups, fuel + 1, lo + 1, branches[0], x);
      if Backtrack(p, s, n, lo + 1, x) == Failed {
        var m := AltFirst(p, s, groups, fuel, jmp + 1, branches[1..], x);
        BacktrackMonotone(p, s, n, n + m, lo + 1, x);
        BacktrackMonotone(p, s, m, n + m, jmp + 1, x);
        n := n + m;
      }
      n := n + 1;
    }
  }

  /** Code for `min` mandatory rounds followed by the optional tail. */
  ghost predicate RepeatAt(p: Program, lo: nat, end: nat, node: Node, min: nat, extra: Option<nat>, greedy: bool) {
    && SegmentCopies(p, lo, node, min)
    && SegmentTail(p, lo + LenCopies(node, min), node, extra, greedy)
    && end == lo + LenCopies(node, min) + LenTail(node, extra)
  }

  lemma {:induction false} LoopParts(p: Program, lo: nat, end: nat, node: Node, greedy: bool)
    requires RepeatAt(p, lo, end, node, 0, None, greedy)
    ensures end == lo + Len(node) + 2 <= |p| && p[lo] == Choice(lo + 1, end, greedy)
    ensures Segment(p, lo + 1, node) && p[lo + 1 + Len(node)] == Jmp(lo)
  {
    assert SegmentLoop(p, lo, node, greedy);
  }

  lemma {:induction false} OptionalParts(p: Program, lo: nat, end: nat, node: Node, k: nat, greedy: bool)
    requires RepeatAt(p, lo, end, node, 0, Some(k), greedy) && k > 0
    ensures lo + 1 + Len(node) <= |p| && p[lo] == Choice(lo + 1, end, greedy) && Segment(p, lo + 1, node)
    ensures RepeatAt(p, lo + 1 + Len(node), end, node, 0, Some(k - 1), greedy)
  {
    var next := lo + 1 + Len(node);
    assert SegmentOptional(p, lo, node, k, end, greedy);
    OptionalIsRepeat(p, next, end, node, k - 1, greedy);
  }

  lemma {:induction false} OptionalIsRepeat(p: Program, lo: nat, end: nat, node: Node, k: nat, greedy: bool)
    requires SegmentOptional(p, lo, node, k, end, greedy) && end == lo + LenOptional(node, k)
    ensures RepeatAt(p, lo, end, node, 0, Some(k), greedy)
  {
    assert LenCopies(node, 0) == 0;
    assert SegmentCopies(p, lo, node, 0);
    assert SegmentTail(p, lo, node, Some(k), greedy);
  }

  ghost predicate GoodBody(node: Node, groups: nat, extra: Option<nat>) {
    WellFormed(node, groups) && LoopsConsume(node) && (extra.None? ==> MustConsume(node))
  }

  lemma {:induction false} RepeatFirst(p: Program, s: Text, groups: nat, fuel: nat, lo: nat, node: Node, min: nat,
                                       extra: Option<nat>, greedy: bool, x: Cursor)
    returns (n: nat)
    requires RepeatAt(p, lo, lo + LenCopies(node, min) + LenTail(node, extra), node, min, extra, greedy)
    requires GoodBody(node, groups, extra) && InText(s, groups, x)
    requires FirstOf(p, s, fuel, lo + LenCopies(node, min) + LenTail(node, extra),
                     Iterate(s, node, min, extra, greedy, x)) != Unfinished
    ensures Backtrack(p, s, n, lo, x)
         == FirstOf(p, s, fuel, lo + LenCopies(node, min) + LenTail(node, extra), Iterate(s, node, min, extra, greedy, x))
    decreases node, 1, min, (if extra.Some? then extra.value else Remaining(s, x.pos)), 1, 0
  {
    var end := lo + LenCopies(node, min) + LenTail(node, extra);
    if min > 0 {
      ResultsInText(s, node, groups, x);
      n := EachFirst(p, s, groups, fuel, lo + Len(node), end, Results(s, node, x), node, min - 1, extra, greedy, |s.chars|);
      n := NodeFirst(p, s, groups, n, lo, node, x);
    } else if extra == Some(0) {
      n := fuel;
    } else {
      n := ChoiceFirst(p, s, groups, fuel, lo, end, node, extra, greedy, x);
    }
  }

  lemma {:induction false} ChoiceFirst(p: Program, s: Text, groups: nat, fuel: nat, lo: nat, end: nat, node: Node,
                                       extra: Option<nat>, greedy: bool, x: Cursor)
    returns (n: nat)
    requires RepeatAt(p, lo, end, node, 0, extra, greedy) && extra != Some(0)
    requires GoodBody(node, groups, extra) && InText(s, groups, x)
    requires FirstOf(p, s, fuel, end, Iterate(s, node, 0, extra, greedy, x)) != Unfinished
    ensures Backtrack(p, s, n, lo, x) == FirstOf(p, s, fuel, end, Iterate(s, node, 0, extra, greedy, x))
    decreases node, 1, 0, (if extra.Some? then extra.value else Remaining(s, x.pos)), 0, 2
  {
    var more := More(s, node, extra, greedy, x);
    match extra {
      case None => LoopParts(p, lo, end, node, greedy);
      case Some(k) => OptionalParts(p, lo, end, node, k, greedy);
    }
    assert FirstOf(p, s, fuel, end, [x]) == Backtrack(p, s, fuel, end, x);
    n := 0;
    if greedy {
      FirstOfAppend(p, s, fuel, end, more, [x]);
      n := MoreFirst(p, s, groups, fuel, lo, end, node, extra, greedy, x);
      BacktrackMonotone(p, s, n, n + fuel, lo + 1, x);
      if Backtrack(p, s, n, lo + 1, x) == Failed {
        BacktrackMonotone(p, s, fuel, n + fuel, end, x);
      }
    } else {
      FirstOfAppend(p, s, fuel, end, [x], more);
      BacktrackMonotone(p, s, fuel, fuel, end, x);
      if Backtrack(p, s, fuel, end, x) == Failed {
        n := MoreFirst(p, s, groups, fuel, lo, end, node, extra, greedy, x);
        BacktrackMonotone(p, s, n, n + fuel, lo + 1, x);
      }
      BacktrackMonotone(p, s, fuel, n + fuel, end, x);
    }
    n := n + fuel + 1;
  }

  lemma {:induction false} MoreFirst(p: Program, s: Text, groups: nat, fuel: nat, lo: nat, end: nat, node: Node,
                                     extra: Option<nat>, greedy: bool, x: Cursor)
    returns (n: nat)
    requires RepeatAt(p, lo, end, node, 0, extra, greedy) && extra != Some(0)
    requires GoodBody(node, groups, extra) && InText(s, groups, x)
    requires FirstOf(p, s, fuel, end, More(s, node, extra, greedy, x)) != Unfinished
    ensures Backtrack(p, s, n, lo + 1, x) == FirstOf(p, s, fuel, end, More(s, node, extra, greedy, x))
    decreases node, 1, 0, (if extra.Some? then extra.value else Remaining(s, x.pos)), 0, 1
  {
    match extra
    case Some(k) =>
      OptionalParts(p, lo, end, node, k, greedy);
      ResultsInText(s, node, groups, x);
      n := EachFirst(p, s, groups, fuel, lo + 1 + Len(node), end, Results(s, node, x), node, 0, Some(k - 1), greedy, 0);
      n := NodeFirst(p, s, groups, n, lo + 1, node, x);
    case None =>
      LoopParts(p, lo, end, node, greedy);
      n := LoopBodyFirst(p, s, groups, fuel, lo, end, node, greedy, x);
      n := NodeFirst(p, s, groups, n, lo + 1, node, x);
  }

  lemma {:induction false} LoopBodyFirst(p: Program, s: Text, groups: nat, fuel: nat, lo: nat, end: nat, node: Node,
                                         greedy: bool, x: Cursor)
    returns (n: nat)
    requires RepeatAt(p, lo, end, node, 0, None, greedy) && GoodBody(node, groups, None) && InText(s, groups, x)
    requires FirstOf(p, s, fuel, end, More(s, node, None, greedy, x)) != Unfinished
    ensures FirstOf(p, s, n, lo + 1 + Len(node), Results(s, node, x)) == FirstOf(p, s, fuel, end, More(s, node, None, greedy, x))
    decreases node, 1, 0, Remaining(s, x.pos), 0, 0
  {
    var ys := Results(s, node, x);
    ResultsInText(s, node, groups, x);
    ConsumingResultsAdvance(s, node, groups, x);
    n := 0;
    if ys != [] {
      assert ys[0] in ys;
      n := EachFirst(p, s, groups, fuel, lo, end, ys, node, 0, None, greedy, Remaining(s, x.pos) - 1);
      LoopParts(p, lo, end, node, greedy);
      JmpFirst(p, s, n, lo + 1 + Len(node), ys);
      n := n + 1;
    }
  }

  lemma {:induction false} ConsumingResultsAdvance(s: Text, node: Node, groups: nat, x: Cursor)
    requires WellFormed(node, groups) && MustConsume(node) && |x.saves| == 2 * groups
    ensures forall y <- Results(s, node, x) :: x.pos < y.pos <= |s.chars|
    ensures Advancing(s, Results(s, node, x), x.pos) == Results(s, node, x)
  {
    forall y | y in Results(s, node, x)
      ensures x.pos < y.pos <= |s.chars|
    {
      ResultDerives(s, node, groups, x, y);
      MustConsumeAdvances(s, node, groups, x, y);
    }
    AdvancingAll(s, Results(s, node, x), x.pos);
  }

  lemma {:induction false} EachFirst(p: Program, s: Text, groups: nat, fuel: nat, lo: nat, end: nat, ys: seq<Cursor>, node: Node,
                                     min: nat, extra: Option<nat>, greedy: bool, bound: nat)
    returns (n: nat)
    requires RepeatAt(p, lo, end, node, min, extra, greedy)
    requires GoodBody(node, groups, extra) && forall y <- ys :: InText(s, groups, y)
    requires extra.None? ==> forall y <- ys :: Remaining(s, y.pos) <= bound
    requires FirstOf(p, s, fuel, end, ThenIterate(s, ys, node, min, extra, greedy, bound)) != Unfinished
    ensures FirstOf(p, s, n, lo, ys) == FirstOf(p, s, fuel, end, ThenIterate(s, ys, node, min, extra, greedy, bound))
    decreases node, 1, min, (if extra.Some? then extra.value else bound), 2, |ys|
  {
    n := 0;
    if ys != [] {
      FirstOfAppend(p, s, fuel, end, Iterate(s, node, min, extra, greedy, ys[0]),
                    ThenIterate(s, ys[1..], node, min, extra, greedy, bound));
      n := RepeatFirst(p, s, groups, fuel, lo, node, min, extra, greedy, ys[0]);
      if Backtrack(p, s, n, lo, ys[0]) == Failed {
        var m := EachFirst(p, s, groups, fuel, lo, end, ys[1..], node, min, extra, greedy, bound);
        BacktrackMonotone(p, s, n, n + m, lo, ys[0]);
        FirstOfMonotone(p, s, m, n + m, lo, ys[1..]);
        n := n + m;
      }
    }
  }

  /** What ordered backtracking over the syntax tree returns from `x`. */
  ghost function FirstResult(s: Text, ast: Node, x: Cursor): Outcome {
    var ys := Results(s, ast, x.Record(0));
    if ys == [] then Failed else Matched(ys[0].Record(1).saves)
  }

  /** For patterns whose unbounded repeats consume, a halting run of the compiled program returns
      exactly the first result: success or failure, end position and every capture. */
  lemma {:induction false} RunReturnsFirstResult(p: Program, s: Text, ast: Node, groups: nat, fuel: nat, x: Cursor)
    requires WellFormed(ast, groups) && LoopsConsume(ast) && Compiled(p, ast) && groups > 0 && InText(s, groups, x)
    requires Run(p, s, fuel, 0, x.pos, x.saves, {}) != Unfinished
    ensures Run(p, s, fuel, 0, x.pos, x.saves, {}) == FirstResult(s, ast, x)
  {
    var ys := Results(s, ast, x.Record(0));
    ResultsInText(s, ast, groups, x.Record(0));
    if ys != [] {
      assert InText(s, groups, ys[0]);
      assert Backtrack(p, s, 1, 2 + Len(ast), ys[0].Record(1)) == Matched(ys[0].Record(1).saves);
      assert Backtrack(p, s, 2, 1 + Len(ast), ys[0]) == Matched(ys[0].Record(1).saves);
    }
    var n := NodeFirst(p, s, groups, 2, 1, ast, x.Record(0));
    assert Backtrack(p, s, n + 1, 0, x) == FirstResult(s, ast, x);
    GuardIsIdle(p, s, n + 1, 0, x, {});
    RunMonotone(p, s, n + 1, n + 1 + fuel, 0, x.pos, x.saves, {});
    RunMonotone(p, s, fuel, n + 1 + fuel, 0, x.pos, x.saves, {});
  }
}
