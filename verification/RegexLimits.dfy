/** What lies outside the guarantees of searching: lazy loops that can be fallen through never fail. */
module RegexLimits {
  import opened Options
  import opened RegexSyntax
  import opened RegexProgram
  import opened RegexCompiler
  import opened RegexExec
  import opened RegexLanguage
  import opened RegexGuard
  import opened RegexOrdered
  import opened RegexSearch

  /** At `pos` the node can be crossed taking only second branches and passing every test on the way. */
  ghost predicate FallsAt(s: Text, node: Node, pos: nat)
    decreases node, 0
  {
    match node
    case Empty => true
    case Atom(t) => pos <= |s.chars| && !TakesChar(t) && Passes(t, s, pos)
    case Concat(nodes) => AllFallAt(s, nodes, pos)
    case Alt(branches) => LastFallsAt(s, branches, pos)
    case Repeat(n, min, max, greedy) =>
      && (min > 0 ==> FallsAt(s, n, pos))
      && (!greedy ==> max.Some? && (max.value > min ==> FallsAt(s, n, pos)))
    case Group(_, n) => FallsAt(s, n, pos)
  }

  ghost predicate AllFallAt(s: Text, nodes: seq<Node>, pos: nat)
    decreases nodes, 0
  {
    nodes != [] ==> FallsAt(s, nodes[0], pos) && AllFallAt(s, nodes[1..], pos)
  }

  ghost predicate LastFallsAt(s: Text, nodes: seq<Node>, pos: nat)
    decreases nodes, 0
  {
    nodes != [] && if |nodes| == 1 then FallsAt(s, nodes[0], pos) else LastFallsAt(s, nodes[1..], pos)
  }

  /** `n` moves that take no character, pass every test and always take the second branch lead from
      `pc` to `end`. */
  ghost predicate Path(p: Program, s: Text, pos: nat, n: nat, pc: nat, end: nat)
    requires pos <= |s.chars|
  {
    if n == 0 then pc == end
    else
      pc < |p| &&
      match p[pc]
      case Match => false
      case Check(t) => !TakesChar(t) && Passes(t, s, pos) && Path(p, s, pos, n - 1, pc + 1, end)
      case Save(_) => Path(p, s, pos, n - 1, pc + 1, end)
      case Jmp(target) => Path(p, s, pos, n - 1, target, end)
      case Split(_, b) => Path(p, s, pos, n - 1, b, end)
  }

  lemma {:induction false} PathJoin(p: Program, s: Text, pos: nat, n: nat, m: nat, pc: nat, mid: nat, end: nat)
    requires pos <= |s.chars| && Path(p, s, pos, n, pc, mid) && Path(p, s, pos, m, mid, end)
    ensures Path(p, s, pos, n + m, pc, end)
    decreases n
  {
    if n > 0 {
      match p[pc]
      case Check(t) => PathJoin(p, s, pos, n - 1, m, pc + 1, mid, end);
      case Save(_) => PathJoin(p, s, pos, n - 1, m, pc + 1, mid, end);
      case Jmp(target) => PathJoin(p, s, pos, n - 1, m, target, mid, end);
      case Split(_, b) => PathJoin(p, s, pos, n - 1, m, b, mid, end);
    }
  }

  /** Such a path leads through the code of a node that can be fallen through. */
  lemma {:induction false} FallPath(p: Program, s: Text, pos: nat, lo: nat, node: Node) returns (n: nat)
    requires pos <= |s.chars| && Segment(p, lo, node) && FallsAt(s, node, pos)
    ensures Path(p, s, pos, n, lo, lo + Len(node))
    decreases node, 1
  {
    match node
    case Empty => n := 0;
    case Atom(_) =>
      n := 1;
      assert Path(p, s, pos, 0, lo + 1, lo + 1);
    case Concat(nodes) => n := SeqPath(p, s, pos, lo, nodes);
    case Alt(branches) => n := AltPath(p, s, pos, lo, branches);
    case Repeat(body, min, max, greedy) =>
      var tail := lo + LenCopies(body, min);
      var first := CopiesPath(p, s, pos, lo, body, min);
      var later := TailPath(p, s, pos, tail, body, Extra(min, max), greedy);
      PathJoin(p, s, pos, first, later, lo, tail, lo + Len(node));
      n := first + later;
    case Group(None, inner) => n := FallPath(p, s, pos, lo, inner);
    case Group(Some(_), inner) => n := GroupPath(p, s, pos, lo, inner, lo + 1 + Len(inner));
  }

  lemma {:induction false} GroupPath(p: Program, s: Text, pos: nat, lo: nat, node: Node, close: nat) returns (n: nat)
    requires pos <= |s.chars| && close == lo + 1 + Len(node) < |p| && p[lo].Save? && p[close].Save?
    requires Segment(p, lo + 1, node) && FallsAt(s, node, pos)
    ensures Path(p, s, pos, n, lo, close + 1)
    decreases node, 2
  {
    var m := FallPath(p, s, pos, lo + 1, node);
    assert Path(p, s, pos, 0, close + 1, close + 1) && Path(p, s, pos, 1, close, close + 1);
    PathJoin(p, s, pos, m, 1, lo + 1, close, close + 1);
    n := m + 2;
  }

  lemma {:induction false} SeqPath(p: Program, s: Text, pos: nat, lo: nat, nodes: seq<Node>) returns (n: nat)
    requires pos <= |s.chars| && SegmentSeq(p, lo, nodes) && AllFallAt(s, nodes, pos)
    ensures Path(p, s, pos, n, lo, lo + LenSeq(nodes))
    decreases nodes, 0
  {
    if nodes == [] {
      n := 0;
    } else {
      var mid := lo + Len(nodes[0]);
      var first := FallPath(p, s, pos, lo, nodes[0]);
      var later := SeqPath(p, s, pos, mid, nodes[1..]);
      PathJoin(p, s, pos, first, later, lo, mid, lo + LenSeq(nodes));
      n := first + later;
    }
  }

  lemma {:induction false} AltPath(p: Program, s: Text, pos: nat, lo: nat, branches: seq<Node>) returns (n: nat)
    requires pos <= |s.chars| && SegmentAlt(p, lo, branches) && LastFallsAt(s, branches, pos)
    ensures Path(p, s, pos, n, lo, lo + LenAlt(branches))
    decreases branches, 0
  {
    if |branches| == 1 {
      n := FallPath(p, s, pos, lo, branches[0]);
    } else {
      n := AltPath(p, s, pos, lo + 2 + Len(branches[0]), branches[1..]);
      n := n + 1;
    }
  }

  lemma {:induction false} CopiesPath(p: Program, s: Text, pos: nat, lo: nat, node: Node, k: nat) returns (n: nat)
    requires pos <= |s.chars| && SegmentCopies(p, lo, node, k) && (k > 0 ==> FallsAt(s, node, pos))
    ensures Path(p, s, pos, n, lo, lo + LenCopies(node, k))
    decreases node, k + 1
  {
    if k == 0 {
      n := 0;
    } else {
      var mid := lo + Len(node);
      var first := FallPath(p, s, pos, lo, node);
      var later := CopiesPath(p, s, pos, mid, node, k - 1);
      PathJoin(p, s, pos, first, later, lo, mid, lo + LenCopies(node, k));
      n := first + later;
    }
  }

  lemma {:induction false} TailPath(p: Program, s: Text, pos: nat, lo: nat, node: Node, extra: Option<nat>, greedy: bool)
    returns (n: nat)
    requires pos <= |s.chars| && SegmentTail(p, lo, node, extra, greedy)
    requires !greedy ==> extra.Some? && (extra.value > 0 ==> FallsAt(s, node, pos))
    ensures Path(p, s, pos, n, lo, lo + LenTail(node, extra))
    decreases node, (if extra.Some? then extra.value else 0) + 2
  {
    match extra
    case None =>
      var end := lo + Len(node) + 2;
      assert p[lo] == Split(lo + 1, end) && Path(p, s, pos, 0, end, end);
      n := 1;
    case Some(k) => n := OptionalPath(p, s, pos, lo, node, k, lo + LenOptional(node, k), greedy);
  }

  lemma {:induction false} OptionalPath(p: Program, s: Text, pos: nat, lo: nat, node: Node, k: nat, end: nat, greedy: bool)
    returns (n: nat)
    requires pos <= |s.chars| && SegmentOptional(p, lo, node, k, end, greedy) && end == lo + LenOptional(node, k)
    requires !greedy && k > 0 ==> FallsAt(s, node, pos)
    ensures Path(p, s, pos, n, lo, end)
    decreases node, k + 1
  {
    if k == 0 {
      n := 0;
    } else if greedy {
      assert Path(p, s, pos, 0, end, end);
      n := 1;
    } else {
      var mid := lo + 1 + Len(node);
      var first := FallPath(p, s, pos, lo + 1, node);
      var later := OptionalPath(p, s, pos, mid, node, k - 1, end, greedy);
      PathJoin(p, s, pos, first, later, lo + 1, mid, end);
      n := 1 + first + later;
    }
  }

  /** A failure travels along such a path: where its start fails, so does its end, with less fuel. */
  lemma {:induction false} FailureTravels(p: Program, s: Text, pos: nat, n: nat, pc: nat, end: nat, fuel: nat, saves: Saves,
                                          active: set<Key>)
    returns (saves': Saves)
    requires pos <= |s.chars| && Path(p, s, pos, n, pc, end) && Run(p, s, fuel, pc, pos, saves, active) == Failed
    ensures n <= fuel && Run(p, s, fuel - n, end, pos, saves', active) == Failed
    decreases n
  {
    saves' := saves;
    if n > 0 {
      match p[pc]
      case Check(t) => saves' := FailureTravels(p, s, pos, n - 1, pc + 1, end, fuel - 1, saves, active);
      case Save(slot) => saves' := FailureTravels(p, s, pos, n - 1, pc + 1, end, fuel - 1, saves[slot := Some(pos)], active);
      case Jmp(target) => saves' := FailureTravels(p, s, pos, n - 1, target, end, fuel - 1, saves, active);
      case Split(_, b) => saves' := FailureTravels(p, s, pos, n - 1, b, end, fuel - 1, saves, active);
    }
  }

  /** A lazy unbounded repeat whose body can be fallen through never reports failure: coming back to
      its split costs steps but changes nothing, so it either matches or goes on for ever. */
  lemma {:induction false} LazyLoopNeverFails(p: Program, s: Text, fuel: nat, lo: nat, node: Node, pos: nat, saves: Saves,
                                              active: set<Key>)
    requires SegmentLoop(p, lo, node, false) && FallsAt(s, node, pos) && pos <= |s.chars|
    ensures Run(p, s, fuel, lo, pos, saves, active) != Failed
  {
    var n := RoundPath(p, s, pos, lo, node, lo + 1 + Len(node));
    NoEndlessFailure(p, s, pos, n, lo, fuel, saves, active);
  }

  /** Once around the loop. */
  lemma {:induction false} RoundPath(p: Program, s: Text, pos: nat, lo: nat, node: Node, jmp: nat) returns (n: nat)
    requires pos <= |s.chars| && SegmentLoop(p, lo, node, false) && jmp == lo + 1 + Len(node) && FallsAt(s, node, pos)
    ensures n > 0 && Path(p, s, pos, n, lo, lo)
  {
    var m := FallPath(p, s, pos, lo + 1, node);
    assert p[jmp] == Jmp(lo) && Path(p, s, pos, 0, lo, lo) && Path(p, s, pos, 1, jmp, lo);
    PathJoin(p, s, pos, m, 1, lo + 1, jmp, lo);
    n := m + 2;
  }

  lemma {:induction false} NoEndlessFailure(p: Program, s: Text, pos: nat, n: nat, lo: nat, fuel: nat, saves: Saves,
                                            active: set<Key>)
    requires pos <= |s.chars| && n > 0 && Path(p, s, pos, n, lo, lo)
    ensures Run(p, s, fuel, lo, pos, saves, active) != Failed
    decreases fuel
  {
    if Run(p, s, fuel, lo, pos, saves, active) == Failed {
      var saves' := FailureTravels(p, s, pos, n, lo, lo, fuel, saves, active);
      NoEndlessFailure(p, s, pos, n, lo, fuel - n, saves', active);
    }
  }

  /** The pattern `body*?` followed by `rest`. */
  function LazyLoop(body: Node, rest: seq<Node>): Node {
    Concat([Repeat(body, 0, None, false)] + rest)
  }

  /** Such a pattern, tried where its body can be fallen through and the pattern has no match,
      makes the executor run for ever. */
  lemma {:induction false} LazyLoopDiverges(p: Program, s: Text, body: Node, rest: seq<Node>, groups: nat, fuel: nat,
                                            pos: nat, saves: Saves)
    requires WellFormed(LazyLoop(body, rest), groups) && Compiled(p, LazyLoop(body, rest)) && groups > 0
    requires FallsAt(s, body, pos) && pos <= |s.chars| && |saves| == 2 * groups
    requires !MatchesAt(s, LazyLoop(body, rest), pos, saves)
    ensures Run(p, s, fuel, 0, pos, saves, {}) == Unfinished
  {
    var ast := LazyLoop(body, rest);
    if Run(p, s, fuel, 0, pos, saves, {}) != Unfinished {
      RunDecidesLanguage(p, s, ast, groups, fuel, pos, saves);
      var loop := Repeat(body, 0, None, false);
      assert ast.nodes[0] == loop && AllWellFormed(ast.nodes, groups) && WellFormed(loop, groups);
      assert SegmentSeq(p, 1, ast.nodes);
      assert Segment(p, 1, loop);
      assert SegmentTail(p, 1, body, None, false);
      LazyLoopNeverFails(p, s, fuel - 1, 1, body, pos, saves[0 := Some(pos)], {});
    }
  }
}
