/** For every guarded pattern the executor returns the first way across it, captures included. */
module RegexFirstWay {
  import opened Options
  import opened RegexSyntax
  import opened RegexProgram
  import opened RegexCompiler
  import opened RegexExec
  import opened RegexTermination
  import opened RegexLanguage
  import opened RegexGuard
  import opened RegexOrdered
  import opened RegexPriority
  import opened RegexWays

  // ----- runs from threads -----

  ghost function RunFrom(p: Program, s: Text, fuel: nat, pc: nat, t: Thread): Outcome {
    if t.at.pos <= |s.chars| then Run(p, s, fuel, pc, t.at.pos, t.at.saves, t.active) else Unfinished
  }

  lemma {:induction false} RunFromMonotone(p: Program, s: Text, f: nat, g: nat, pc: nat, t: Thread)
    requires f <= g && RunFrom(p, s, f, pc, t) != Unfinished
    ensures RunFrom(p, s, g, pc, t) == RunFrom(p, s, f, pc, t)
  {
    RunMonotone(p, s, f, g, pc, t.at.pos, t.at.saves, t.active);
  }

  /** The first of `ts` from which the rest of the program succeeds decides. */
  ghost function FirstRun(p: Program, s: Text, fuel: nat, pc: nat, ts: seq<Thread>): Outcome {
    if ts == [] then Failed
    else
      var r := RunFrom(p, s, fuel, pc, ts[0]);
      if r == Failed then FirstRun(p, s, fuel, pc, ts[1..]) else r
  }

  lemma {:induction false} FirstRunMonotone(p: Program, s: Text, f: nat, g: nat, pc: nat, ts: seq<Thread>)
    requires f <= g && FirstRun(p, s, f, pc, ts) != Unfinished
    ensures FirstRun(p, s, g, pc, ts) == FirstRun(p, s, f, pc, ts)
    decreases |ts|
  {
    if ts != [] {
      RunFromMonotone(p, s, f, g, pc, ts[0]);
      if RunFrom(p, s, f, pc, ts[0]) == Failed {
        FirstRunMonotone(p, s, f, g, pc, ts[1..]);
      }
    }
  }

  lemma {:induction false} FirstRunAppend(p: Program, s: Text, fuel: nat, pc: nat, ts: seq<Thread>, us: seq<Thread>)
    ensures FirstRun(p, s, fuel, pc, ts + us)
         == if FirstRun(p, s, fuel, pc, ts) == Failed then FirstRun(p, s, fuel, pc, us) else FirstRun(p, s, fuel, pc, ts)
    decreases |ts|
  {
    if ts == [] {
      assert ts + us == us;
    } else {
      assert (ts + us)[1..] == ts[1..] + us;
      FirstRunAppend(p, s, fuel, pc, ts[1..], us);
    }
  }

  ghost predicate AllInText(s: Text, groups: nat, ts: seq<Thread>) {
    forall t <- ts :: InText(s, groups, t.at)
  }

  lemma {:induction false} JmpRuns(p: Program, s: Text, groups: nat, fuel: nat, pc: nat, ts: seq<Thread>)
    requires pc < |p| && p[pc].Jmp? && AllInText(s, groups, ts)
    ensures FirstRun(p, s, fuel + 1, pc, ts) == FirstRun(p, s, fuel, p[pc].target, ts)
    decreases |ts|
  {
    if ts != [] {
      assert InText(s, groups, ts[0].at);
      JmpRuns(p, s, groups, fuel, pc, ts[1..]);
    }
  }

  lemma {:induction false} RecordRuns(p: Program, s: Text, groups: nat, fuel: nat, pc: nat, ts: seq<Thread>, slot: nat)
    requires pc < |p| && p[pc] == Save(slot) && slot < 2 * groups && AllInText(s, groups, ts)
    ensures FirstRun(p, s, fuel + 1, pc, ts) == FirstRun(p, s, fuel, pc + 1, RecordWays(ts, slot))
    decreases |ts|
  {
    if ts != [] {
      assert RecordWays(ts, slot)[1..] == RecordWays(ts[1..], slot);
      assert InText(s, groups, ts[0].at);
      assert RunFrom(p, s, fuel + 1, pc, ts[0]) == RunFrom(p, s, fuel, pc + 1, ts[0].Record(slot));
      RecordRuns(p, s, groups, fuel, pc, ts[1..], slot);
    }
  }

  /** A split tries its first branch, unless it is active, and then its second. */
  lemma {:induction false} SplitRuns(p: Program, s: Text, fuel: nat, pc: nat, end: nat, t: Thread, firsts: seq<Thread>,
                                     seconds: seq<Thread>, n: nat, m: nat)
    requires pc < |p| && p[pc].Split? && t.at.pos <= |s.chars|
    requires if t.Entered(pc) then firsts == []
             else RunFrom(p, s, n, p[pc].first, t.Enter(pc)) == FirstRun(p, s, fuel, end, firsts)
    requires FirstRun(p, s, fuel, end, firsts) == Failed ==>
               RunFrom(p, s, m, p[pc].second, t) == FirstRun(p, s, fuel, end, seconds)
    requires FirstRun(p, s, fuel, end, firsts + seconds) != Unfinished
    ensures RunFrom(p, s, n + m + 1, pc, t) == FirstRun(p, s, fuel, end, firsts + seconds)
  {
    FirstRunAppend(p, s, fuel, end, firsts, seconds);
    if !t.Entered(pc) {
      RunFromMonotone(p, s, n, n + m, p[pc].first, t.Enter(pc));
    }
    if FirstRun(p, s, fuel, end, firsts) == Failed {
      RunFromMonotone(p, s, m, n + m, p[pc].second, t);
    }
  }

  /** The first thread decides, unless it fails. */
  lemma {:induction false} HeadRuns(p: Program, s: Text, fuel: nat, lo: nat, end: nat, ts: seq<Thread>, now: seq<Thread>,
                                    later: seq<Thread>, n: nat, m: nat)
    requires ts != [] && RunFrom(p, s, n, lo, ts[0]) == FirstRun(p, s, fuel, end, now)
    requires FirstRun(p, s, fuel, end, now) == Failed ==> FirstRun(p, s, m, lo, ts[1..]) == FirstRun(p, s, fuel, end, later)
    requires FirstRun(p, s, fuel, end, now + later) != Unfinished
    ensures FirstRun(p, s, n + m, lo, ts) == FirstRun(p, s, fuel, end, now + later)
  {
    FirstRunAppend(p, s, fuel, end, now, later);
    RunFromMonotone(p, s, n, n + m, lo, ts[0]);
    if FirstRun(p, s, fuel, end, now) == Failed {
      FirstRunMonotone(p, s, m, n + m, lo, ts[1..]);
    }
  }

  // ----- node by node -----

  lemma {:induction false} WaysInText(p: Program, s: Text, groups: nat, node: Node, lo: nat, t: Thread)
    requires Segment(p, lo, node) && WellFormed(node, groups) && InText(s, groups, t.at)
    ensures AllInText(s, groups, Ways(s, |p|, node, lo, t))
  {
    forall u | u in Ways(s, |p|, node, lo, t)
      ensures InText(s, groups, u.at)
    {
      WayMoves(s, |p|, groups, node, lo, t, u);
    }
  }

  /** Running a node's code is trying the ways across it in order on what follows. */
  lemma {:induction false} NodeRuns(p: Program, s: Text, groups: nat, fuel: nat, lo: nat, end: nat, node: Node, t: Thread,
                                    ways: seq<Thread>)
    returns (n: nat)
    requires Segment(p, lo, node) && end == lo + Len(node) && WellFormed(node, groups) && Guarded(node) && InText(s, groups, t.at)
    requires ways == Ways(s, |p|, node, lo, t) && FirstRun(p, s, fuel, end, ways) != Unfinished
    ensures RunFrom(p, s, n, lo, t) == FirstRun(p, s, fuel, end, ways)
    decreases node, 0
  {
    match node
    case Empty =>
      assert ways == [t];
      n := fuel;
    case Atom(test) => n := AtomRuns(p, s, groups, fuel, lo, test, t, ways);
    case Concat(nodes) =>
      assert SegmentSeq(p, lo, nodes);
      n := SeqRuns(p, s, groups, fuel, lo, end, nodes, t, ways);
    case Alt(branches) =>
      assert SegmentAlt(p, lo, branches);
      n := AltRuns(p, s, groups, fuel, lo, end, branches, t, ways);
    case Repeat(body, min, max, greedy) => n := RepeatRuns(p, s, groups, fuel, lo, end, body, min, Extra(min, max), greedy, t, ways);
    case Group(None, inner) =>
      assert Segment(p, lo, inner);
      n := NodeRuns(p, s, groups, fuel, lo, end, inner, t, ways);
    case Group(Some(index), inner) =>
      assert Segment(p, lo + 1, inner);
      n := GroupRuns(p, s, groups, fuel, lo, end - 1, inner, 2 * index, t, ways);
  }

  lemma {:induction false} AtomRuns(p: Program, s: Text, groups: nat, fuel: nat, lo: nat, test: Test, t: Thread, ways: seq<Thread>)
    returns (n: nat)
    requires lo < |p| && p[lo] == Check(test) && InText(s, groups, t.at) && ways == Ways(s, |p|, Atom(test), lo, t)
    ensures RunFrom(p, s, n, lo, t) == FirstRun(p, s, fuel, lo + 1, ways)
  {
    if ways != [] {
      assert FirstRun(p, s, fuel, lo + 1, ways) == RunFrom(p, s, fuel, lo + 1, ways[0]);
    }
    n := fuel + 1;
  }

  lemma {:induction false} GroupRuns(p: Program, s: Text, groups: nat, fuel: nat, lo: nat, close: nat, node: Node, slot: nat, t: Thread,
                                     ways: seq<Thread>)
    returns (n: nat)
    requires close == lo + 1 + Len(node) < |p| && p[lo] == Save(slot) && p[close] == Save(slot + 1)
    requires Segment(p, lo + 1, node) && WellFormed(node, groups) && Guarded(node) && InText(s, groups, t.at) && slot + 1 < 2 * groups
    requires ways == RecordWays(Ways(s, |p|, node, lo + 1, t.Record(slot)), slot + 1)
    requires FirstRun(p, s, fuel, close + 1, ways) != Unfinished
    ensures RunFrom(p, s, n, lo, t) == FirstRun(p, s, fuel, close + 1, ways)
    decreases node, 2
  {
    var inside := t.Record(slot);
    var inner := Ways(s, |p|, node, lo + 1, inside);
    WaysInText(p, s, groups, node, lo + 1, inside);
    RecordRuns(p, s, groups, fuel, close, inner, slot + 1);
    n := NodeRuns(p, s, groups, fuel + 1, lo + 1, close, node, inside, inner);
    SaveRuns(p, s, n, lo, t, slot);
    n := n + 1;
  }

  lemma {:induction false} SaveRuns(p: Program, s: Text, fuel: nat, pc: nat, t: Thread, slot: nat)
    requires pc < |p| && p[pc] == Save(slot) && slot < |t.at.saves|
    ensures RunFrom(p, s, fuel + 1, pc, t) == RunFrom(p, s, fuel, pc + 1, t.Record(slot))
  {
  }

  lemma {:induction false} SeqRuns(p: Program, s: Text, groups: nat, fuel: nat, lo: nat, end: nat, nodes: seq<Node>, t: Thread,
                                   ways: seq<Thread>)
    returns (n: nat)
    requires SegmentSeq(p, lo, nodes) && end == lo + LenSeq(nodes) && AllWellFormed(nodes, groups) && AllGuarded(nodes)
    requires InText(s, groups, t.at) && ways == WaysSeq(s, |p|, nodes, lo, t) && FirstRun(p, s, fuel, end, ways) != Unfinished
    ensures RunFrom(p, s, n, lo, t) == FirstRun(p, s, fuel, end, ways)
    decreases nodes, 0
  {
    if nodes == [] {
      assert ways == [t];
      n := fuel;
    } else {
      var mid, first := lo + Len(nodes[0]), Ways(s, |p|, nodes[0], lo, t);
      WaysInText(p, s, groups, nodes[0], lo, t);
      n := ThenRuns(p, s, groups, fuel, mid, end, first, nodes[1..], ways);
      n := NodeRuns(p, s, groups, n, lo, mid, nodes[0], t, first);
    }
  }

  lemma {:induction false} ThenRuns(p: Program, s: Text, groups: nat, fuel: nat, lo: nat, end: nat, ts: seq<Thread>, nodes: seq<Node>,
                                    ways: seq<Thread>)
    returns (n: nat)
    requires SegmentSeq(p, lo, nodes) && end == lo + LenSeq(nodes) && AllWellFormed(nodes, groups) && AllGuarded(nodes)
    requires AllInText(s, groups, ts) && ways == ThenWays(s, |p|, ts, nodes, lo) && FirstRun(p, s, fuel, end, ways) != Unfinished
    ensures FirstRun(p, s, n, lo, ts) == FirstRun(p, s, fuel, end, ways)
    decreases nodes, 1, |ts|
  {
    n := 0;
    if ts != [] {
      var now, later := WaysSeq(s, |p|, nodes, lo, ts[0]), ThenWays(s, |p|, ts[1..], nodes, lo);
      assert InText(s, groups, ts[0].at) && ways == now + later;
      FirstRunAppend(p, s, fuel, end, now, later);
      n := SeqRuns(p, s, groups, fuel, lo, end, nodes, ts[0], now);
      var m := 0;
      if FirstRun(p, s, fuel, end, now) == Failed {
        m := ThenRuns(p, s, groups, fuel, lo, end, ts[1..], nodes, later);
      }
      HeadRuns(p, s, fuel, lo, end, ts, now, later, n, m);
      n := n + m;
    }
  }

  lemma {:induction false} AltRuns(p: Program, s: Text, groups: nat, fuel: nat, lo: nat, end: nat, branches: seq<Node>, t: Thread,
                                   ways: seq<Thread>)
    returns (n: nat)
    requires SegmentAlt(p, lo, branches) && branches != [] && InText(s, groups, t.at) && end == lo + LenAlt(branches)
    requires AllWellFormed(branches, groups) && AllGuarded(branches)
    requires ways == WaysAlt(s, |p|, branches, lo, t) && FirstRun(p, s, fuel, end, ways) != Unfinished
    ensures RunFrom(p, s, n, lo, t) == FirstRun(p, s, fuel, end, ways)
    decreases branches, 1
  {
    if |branches| == 1 {
      n := NodeRuns(p, s, groups, fuel, lo, end, branches[0], t, ways);
    } else {
      n := BranchesRun(p, s, groups, fuel, lo, lo + 1 + Len(branches[0]), end, branches, t, ways);
    }
  }

  lemma {:induction false} BranchesRun(p: Program, s: Text, groups: nat, fuel: nat, lo: nat, jmp: nat, end: nat, branches: seq<Node>,
                                       t: Thread, ways: seq<Thread>)
    returns (n: nat)
    requires |branches| > 1 && jmp == lo + 1 + Len(branches[0]) < |p| && p[lo] == Split(lo + 1, jmp + 1) && p[jmp] == Jmp(end)
    requires Segment(p, lo + 1, branches[0]) && SegmentAlt(p, jmp + 1, branches[1..]) && end == jmp + 1 + LenAlt(branches[1..])
    requires AllWellFormed(branches, groups) && AllGuarded(branches) && InText(s, groups, t.at)
    requires ways == WaysAlt(s, |p|, branches, lo, t) && FirstRun(p, s, fuel, end, ways) != Unfinished
    ensures RunFrom(p, s, n, lo, t) == FirstRun(p, s, fuel, end, ways)
    decreases branches, 0
  {
    var firsts := if t.Entered(lo) then [] else Ways(s, |p|, branches[0], lo + 1, t.Enter(lo));
    var seconds := WaysAlt(s, |p|, branches[1..], jmp + 1, t);
    assert ways == firsts + seconds;
    FirstRunAppend(p, s, fuel, end, firsts, seconds);
    n := 0;
    if !t.Entered(lo) {
      n := BranchRuns(p, s, groups, fuel, lo + 1, jmp, end, branches[0], t.Enter(lo), firsts);
    }
    var m := 0;
    if FirstRun(p, s, fuel, end, firsts) == Failed {
      m := AltRuns(p, s, groups, fuel, jmp + 1, end, branches[1..], t, seconds);
    }
    SplitRuns(p, s, fuel, lo, end, t, firsts, seconds, n, m);
    n := n + m + 1;
  }

  /** A branch with a jump to the end after it. */
  lemma {:induction false} BranchRuns(p: Program, s: Text, groups: nat, fuel: nat, lo: nat, jmp: nat, end: nat, branch: Node, t: Thread,
                                      ways: seq<Thread>)
    returns (n: nat)
    requires Segment(p, lo, branch) && jmp == lo + Len(branch) < |p| && p[jmp] == Jmp(end)
    requires WellFormed(branch, groups) && Guarded(branch) && InText(s, groups, t.at)
    requires ways == Ways(s, |p|, branch, lo, t) && FirstRun(p, s, fuel, end, ways) != Unfinished
    ensures RunFrom(p, s, n, lo, t) == FirstRun(p, s, fuel, end, ways)
    decreases branch, 2
  {
    WaysInText(p, s, groups, branch, lo, t);
    JmpRuns(p, s, groups, fuel, jmp, ways);
    n := NodeRuns(p, s, groups, fuel + 1, lo, jmp, branch, t, ways);
  }

  ghost predicate GuardedBody(node: Node, groups: nat, extra: Option<nat>, greedy: bool) {
    WellFormed(node, groups) && Guarded(node) && (extra.None? && !greedy ==> !FallsThrough(node))
  }

  lemma {:induction false} RepeatRuns(p: Program, s: Text, groups: nat, fuel: nat, lo: nat, end: nat, node: Node, min: nat,
                                      extra: Option<nat>, greedy: bool, t: Thread, ways: seq<Thread>)
    returns (n: nat)
    requires RepeatAt(p, lo, end, node, min, extra, greedy) && GuardedBody(node, groups, extra, greedy) && InText(s, groups, t.at)
    requires ways == WaysRepeat(s, |p|, node, lo, min, extra, greedy, t) && FirstRun(p, s, fuel, end, ways) != Unfinished
    ensures RunFrom(p, s, n, lo, t) == FirstRun(p, s, fuel, end, ways)
    decreases node, 1, min, (if extra.Some? then extra.value else Remaining(s, t.at.pos)),
              (if extra.Some? then 0 else Free(s, |p|, t)), 3, 0
  {
    if min > 0 {
      var mid, first := lo + Len(node), Ways(s, |p|, node, lo, t);
      WaysInText(p, s, groups, node, lo, t);
      n := EachRuns(p, s, groups, fuel, mid, end, first, node, min - 1, extra, greedy, |s.chars| + 1, 0, ways);
      n := NodeRuns(p, s, groups, n, lo, mid, node, t, first);
    } else if extra == Some(0) {
      assert ways == [t];
      n := fuel;
    } else {
      n := ChoiceRuns(p, s, groups, fuel, lo, end, node, extra, greedy, t, ways);
    }
  }

  lemma {:induction false} ChoiceRuns(p: Program, s: Text, groups: nat, fuel: nat, lo: nat, end: nat, node: Node,
                                      extra: Option<nat>, greedy: bool, t: Thread, ways: seq<Thread>)
    returns (n: nat)
    requires RepeatAt(p, lo, end, node, 0, extra, greedy) && extra != Some(0)
    requires GuardedBody(node, groups, extra, greedy) && InText(s, groups, t.at)
    requires ways == WaysRepeat(s, |p|, node, lo, 0, extra, greedy, t) && FirstRun(p, s, fuel, end, ways) != Unfinished
    ensures RunFrom(p, s, n, lo, t) == FirstRun(p, s, fuel, end, ways)
    decreases node, 1, 0, (if extra.Some? then extra.value else Remaining(s, t.at.pos)),
              (if extra.Some? then 0 else Free(s, |p|, t)), 2, 2
  {
    match extra {
      case None => LoopParts(p, lo, end, node, greedy);
      case Some(k) => OptionalParts(p, lo, end, node, k, greedy);
    }
    var entered := t.Enter(lo);
    assert FirstRun(p, s, fuel, end, [t]) == RunFrom(p, s, fuel, end, t);
    assert FirstRun(p, s, fuel, end, [entered]) == RunFrom(p, s, fuel, end, entered);
    n := fuel;
    var m := fuel;
    var firsts, seconds;
    if greedy {
      var round := Round(s, |p|, node, lo, extra, greedy, t, entered);
      firsts, seconds := if t.Entered(lo) then [] else round, [t];
      FirstRunAppend(p, s, fuel, end, firsts, seconds);
      if !t.Entered(lo) {
        n := RoundRuns(p, s, groups, fuel, lo, end, node, extra, greedy, t, entered, round);
      }
    } else {
      firsts, seconds := if t.Entered(lo) then [] else [entered], Round(s, |p|, node, lo, extra, greedy, t, t);
      FirstRunAppend(p, s, fuel, end, firsts, seconds);
      if FirstRun(p, s, fuel, end, firsts) == Failed {
        m := RoundRuns(p, s, groups, fuel, lo, end, node, extra, greedy, t, t, seconds);
      }
    }
    assert ways == firsts + seconds;
    SplitRuns(p, s, fuel, lo, end, t, firsts, seconds, n, m);
    n := n + m + 1;
  }

  lemma {:induction false} RoundRuns(p: Program, s: Text, groups: nat, fuel: nat, lo: nat, end: nat, node: Node,
                                     extra: Option<nat>, greedy: bool, t: Thread, start: Thread, round: seq<Thread>)
    returns (n: nat)
    requires RepeatAt(p, lo, end, node, 0, extra, greedy) && extra != Some(0)
    requires GuardedBody(node, groups, extra, greedy) && InText(s, groups, t.at)
    requires if greedy then !t.Entered(lo) && start == t.Enter(lo) else start == t
    requires round == Round(s, |p|, node, lo, extra, greedy, t, start) && FirstRun(p, s, fuel, end, round) != Unfinished
    ensures RunFrom(p, s, n, lo + 1, start) == FirstRun(p, s, fuel, end, round)
    decreases node, 1, 0, (if extra.Some? then extra.value else Remaining(s, t.at.pos)),
              (if extra.Some? then 0 else Free(s, |p|, t)), 2, 1
  {
    var close, ways := lo + 1 + Len(node), Ways(s, |p|, node, lo + 1, start);
    match extra {
      case Some(k) =>
        OptionalParts(p, lo, end, node, k, greedy);
        n := OptionalRuns(p, s, groups, fuel, lo, close, end, node, k, greedy, t, start, ways, round);
      case None =>
        LoopParts(p, lo, end, node, greedy);
        n := LoopRuns(p, s, groups, fuel, lo, close, end, node, greedy, t, start, ways, round);
    }
    n := NodeRuns(p, s, groups, n, lo + 1, close, node, start, ways);
  }

  lemma {:induction false} OptionalRuns(p: Program, s: Text, groups: nat, fuel: nat, lo: nat, close: nat, end: nat, node: Node, k: nat,
                                        greedy: bool, t: Thread, start: Thread, ways: seq<Thread>, round: seq<Thread>)
    returns (n: nat)
    requires k > 0 && RepeatAt(p, lo, end, node, 0, Some(k), greedy) && GuardedBody(node, groups, Some(k), greedy)
    requires InText(s, groups, t.at) && start.at == t.at && close == lo + 1 + Len(node) && ways == Ways(s, |p|, node, lo + 1, start)
    requires round == Round(s, |p|, node, lo, Some(k), greedy, t, start) && FirstRun(p, s, fuel, end, round) != Unfinished
    ensures FirstRun(p, s, n, close, ways) == FirstRun(p, s, fuel, end, round)
    decreases node, 1, 0, k, 0, 2, 0
  {
    OptionalParts(p, lo, end, node, k, greedy);
    WaysInText(p, s, groups, node, lo + 1, start);
    n := EachRuns(p, s, groups, fuel, close, end, ways, node, 0, Some(k - 1), greedy, 0, 0, round);
  }

  /** Every way across the body of a guarded loop counts as a round. */
  lemma {:induction false} RoundsCount(p: Program, s: Text, groups: nat, lo: nat, node: Node, greedy: bool, t: Thread, start: Thread)
    requires Segment(p, lo + 1, node) && GuardedBody(node, groups, None, greedy) && InText(s, groups, t.at)
    requires if greedy then !t.Entered(lo) && start == t.Enter(lo) else start == t
    ensures var ways := Ways(s, |p|, node, lo + 1, start);
            && AllInText(s, groups, ways)
            && (forall u <- ways :: Under(s, |p|, u, Remaining(s, t.at.pos), Free(s, |p|, t)))
            && Unders(s, |p|, ways, Remaining(s, t.at.pos), Free(s, |p|, t)) == ways
  {
    var ways := Ways(s, |p|, node, lo + 1, start);
    if greedy {
      EnteringMoves(s, |p|, groups, t, lo);
    }
    forall u | u in ways
      ensures InText(s, groups, u.at) && Ahead(s, |p|, t, u)
    {
      WayMoves(s, |p|, groups, node, lo + 1, start, u);
      Onwards(s, |p|, groups, t, start, u);
    }
    UndersAll(s, |p|, ways, Remaining(s, t.at.pos), Free(s, |p|, t));
  }

  lemma {:induction false} LoopRuns(p: Program, s: Text, groups: nat, fuel: nat, lo: nat, close: nat, end: nat, node: Node, greedy: bool,
                                    t: Thread, start: Thread, ways: seq<Thread>, round: seq<Thread>)
    returns (n: nat)
    requires RepeatAt(p, lo, end, node, 0, None, greedy) && GuardedBody(node, groups, None, greedy) && InText(s, groups, t.at)
    requires if greedy then !t.Entered(lo) && start == t.Enter(lo) else start == t
    requires close == lo + 1 + Len(node) && ways == Ways(s, |p|, node, lo + 1, start)
    requires round == Round(s, |p|, node, lo, None, greedy, t, start) && FirstRun(p, s, fuel, end, round) != Unfinished
    ensures FirstRun(p, s, n, close, ways) == FirstRun(p, s, fuel, end, round)
    decreases node, 1, 0, Remaining(s, t.at.pos), Free(s, |p|, t), 2, 0
  {
    LoopParts(p, lo, end, node, greedy);
    RoundsCount(p, s, groups, lo, node, greedy, t, start);
    n := EachRuns(p, s, groups, fuel, lo, end, ways, node, 0, None, greedy, Remaining(s, t.at.pos), Free(s, |p|, t), round);
    JmpRuns(p, s, groups, n, close, ways);
    n := n + 1;
  }

  lemma {:induction false} EachRuns(p: Program, s: Text, groups: nat, fuel: nat, lo: nat, end: nat, ts: seq<Thread>, node: Node,
                                    min: nat, extra: Option<nat>, greedy: bool, left: nat, free: nat, ways: seq<Thread>)
    returns (n: nat)
    requires RepeatAt(p, lo, end, node, min, extra, greedy) && GuardedBody(node, groups, extra, greedy) && AllInText(s, groups, ts)
    requires extra.None? ==> forall t <- ts :: Under(s, |p|, t, left, free)
    requires ways == ThenRepeat(s, |p|, ts, node, lo, min, extra, greedy, left, free) && FirstRun(p, s, fuel, end, ways) != Unfinished
    ensures FirstRun(p, s, n, lo, ts) == FirstRun(p, s, fuel, end, ways)
    decreases node, 1, min, (if extra.Some? then extra.value else left), (if extra.Some? then 0 else free),
              (if extra.Some? then 4 else 1), |ts|
  {
    n := 0;
    if ts != [] {
      assert InText(s, groups, ts[0].at) && (extra.None? ==> ts[0] in ts && Under(s, |p|, ts[0], left, free));
      var now := WaysRepeat(s, |p|, node, lo, min, extra, greedy, ts[0]);
      var later := ThenRepeat(s, |p|, ts[1..], node, lo, min, extra, greedy, left, free);
      assert ways == now + later;
      FirstRunAppend(p, s, fuel, end, now, later);
      n := RepeatRuns(p, s, groups, fuel, lo, end, node, min, extra, greedy, ts[0], now);
      var m := 0;
      if FirstRun(p, s, fuel, end, now) == Failed {
        m := EachRuns(p, s, groups, fuel, lo, end, ts[1..], node, min, extra, greedy, left, free, later);
      }
      HeadRuns(p, s, fuel, lo, end, ts, now, later, n, m);
      n := n + m;
    }
  }

  // ----- whole patterns -----

  /** All ways across the pattern from `x`, in the program compiled from it. */
  ghost function PatternWays(s: Text, ast: Node, x: Cursor): seq<Thread> {
    Ways(s, Len(ast) + 3, ast, 1, Thread(x.Record(0), {}))
  }

  ghost function FirstWay(s: Text, ast: Node, x: Cursor): Outcome {
    var ways := PatternWays(s, ast, x);
    if ways == [] then Failed else Matched(ways[0].at.Record(1).saves)
  }

  /** For every guarded pattern a halting run of the compiled program returns exactly the first way:
      success or failure, end position and every capture. */
  lemma {:induction false} RunReturnsFirstWay(p: Program, s: Text, ast: Node, groups: nat, fuel: nat, x: Cursor)
    requires WellFormed(ast, groups) && Guarded(ast) && Compiled(p, ast) && groups > 0 && InText(s, groups, x)
    requires Run(p, s, fuel, 0, x.pos, x.saves, {}) != Unfinished
    ensures Run(p, s, fuel, 0, x.pos, x.saves, {}) == FirstWay(s, ast, x)
  {
    var t := Thread(x.Record(0), {});
    var ways := PatternWays(s, ast, x);
    WaysInText(p, s, groups, ast, 1, t);
    if ways != [] {
      assert InText(s, groups, ways[0].at);
      assert RunFrom(p, s, 1, 2 + Len(ast), ways[0].Record(1)) == Matched(ways[0].at.Record(1).saves);
      assert RunFrom(p, s, 2, 1 + Len(ast), ways[0]) == Matched(ways[0].at.Record(1).saves);
    }
    var n := NodeRuns(p, s, groups, 2, 1, 1 + Len(ast), ast, t, ways);
    assert RunFrom(p, s, n + 1, 0, Thread(x, {})) == FirstWay(s, ast, x);
    RunMonotone(p, s, n + 1, n + 1 + fuel, 0, x.pos, x.saves, {});
    RunMonotone(p, s, fuel, n + 1 + fuel, 0, x.pos, x.saves, {});
  }

  /** There is a way exactly when there is a match: skipping active splits loses none. */
  lemma {:induction false} WaysDecideLanguage(p: Program, s: Text, ast: Node, groups: nat, x: Cursor)
    requires WellFormed(ast, groups) && Guarded(ast) && Compiled(p, ast) && groups > 0 && InText(s, groups, x)
    ensures PatternWays(s, ast, x) != [] <==> MatchesAt(s, ast, x.pos, x.saves)
  {
    var fuel := GuardedHalts(p, s, ast, groups, x.pos, x.saves);
    RunDecidesLanguage(p, s, ast, groups, fuel, x.pos, x.saves);
    RunReturnsFirstWay(p, s, ast, groups, fuel, x);
  }

  /** When unbounded repeats consume, skipping changes nothing: the first way is the first result. */
  lemma {:induction false} FirstWayIsFirstResult(p: Program, s: Text, ast: Node, groups: nat, x: Cursor)
    requires WellFormed(ast, groups) && LoopsConsume(ast) && Compiled(p, ast) && groups > 0 && InText(s, groups, x)
    ensures FirstWay(s, ast, x) == FirstResult(s, ast, x)
  {
    ConsumingIsGuarded(ast, groups);
    var fuel := GuardedHalts(p, s, ast, groups, x.pos, x.saves);
    RunReturnsFirstWay(p, s, ast, groups, fuel, x);
    RunReturnsFirstResult(p, s, ast, groups, fuel, x);
  }
}
