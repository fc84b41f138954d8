/** The compiler: emits instructions into a growing program and patches jump targets afterwards. */
module RegexCompiler {
  import opened Options
  import opened RegexSyntax
  import opened RegexProgram

  lemma {:induction false} AppendSegment(p: Program, lo: nat, nodes: seq<Node>, node: Node)
    requires SegmentSeq(p, lo, nodes) && Segment(p, lo + LenSeq(nodes), node)
    ensures LenSeq(nodes + [node]) == LenSeq(nodes) + Len(node)
    ensures SegmentSeq(p, lo, nodes + [node])
    decreases |nodes|
  {
    if nodes == [] {
      assert [node][1..] == [];
      assert LenSeq([node]) == Len(node) + LenSeq([]);
      assert nodes + [node] == [node];
    } else {
      AppendSegment(p, lo + Len(nodes[0]), nodes[1..], node);
      assert (nodes + [node])[1..] == nodes[1..] + [node];
    }
  }

  lemma {:induction false} AppendCopy(p: Program, lo: nat, node: Node, k: nat)
    requires SegmentCopies(p, lo, node, k) && Segment(p, lo + LenCopies(node, k), node)
    ensures LenCopies(node, k + 1) == LenCopies(node, k) + Len(node)
    ensures SegmentCopies(p, lo, node, k + 1)
    decreases k
  {
    if k > 0 {
      AppendCopy(p, lo + Len(node), node, k - 1);
    }
  }

  /** A first branch and the branches after it, joined by the split before and the jump after it. */
  lemma {:induction false} AssembleAlt(first: Program, rest: Program, p: Program, lo: nat, jmp: nat, branches: seq<Node>)
    requires |branches| > 1 && jmp == lo + 1 + Len(branches[0]) && |p| == jmp + 1 + LenAlt(branches[1..])
    requires Segment(first, lo + 1, branches[0]) && SameCode(first, p, lo + 1, jmp)
    requires SegmentAlt(rest, jmp + 1, branches[1..]) && SameCode(rest, p, jmp + 1, |p|)
    requires p[lo] == Split(lo + 1, jmp + 1) && p[jmp] == Jmp(|p|)
    ensures |p| == lo + LenAlt(branches) && SegmentAlt(p, lo, branches)
  {
    SegmentFrame(first, p, lo + 1, branches[0]);
    SegmentAltFrame(rest, p, jmp + 1, branches[1..]);
  }

  ghost predicate OptionalAt(p: Program, at: nat, node: Node, end: nat, greedy: bool) {
    at < |p| && p[at] == Choice(at + 1, end, greedy) && Segment(p, at + 1, node)
  }

  ghost predicate OptionalsAt(p: Program, lo: nat, node: Node, k: nat, end: nat, greedy: bool) {
    forall j: nat | j < k :: OptionalAt(p, lo + LenOptional(node, j), node, end, greedy)
  }

  /** Optional copies whose bodies are in place and whose splits all lead to `end`. */
  lemma {:induction false} AssembleOptional(p: Program, lo: nat, node: Node, k: nat, end: nat, greedy: bool)
    requires lo + LenOptional(node, k) <= |p| && OptionalsAt(p, lo, node, k, end, greedy)
    ensures SegmentOptional(p, lo, node, k, end, greedy)
    decreases k
  {
    if k > 0 {
      OptionalStep(node, k - 1);
      OptionalsShift(p, lo, node, k, end, greedy);
      AssembleOptional(p, lo + 1 + Len(node), node, k - 1, end, greedy);
      OptionalFirst(p, lo, node, k, end, greedy);
    }
  }

  lemma {:induction false} OptionalsShift(p: Program, lo: nat, node: Node, k: nat, end: nat, greedy: bool)
    requires k > 0 && OptionalsAt(p, lo, node, k, end, greedy)
    ensures OptionalsAt(p, lo + 1 + Len(node), node, k - 1, end, greedy)
  {
    var next := lo + 1 + Len(node);
    forall j: nat | j < k - 1
      ensures OptionalAt(p, next + LenOptional(node, j), node, end, greedy)
    {
      OptionalStep(node, j);
      assert OptionalAt(p, lo + LenOptional(node, j + 1), node, end, greedy);
    }
  }

  lemma {:induction false} OptionalFirst(p: Program, lo: nat, node: Node, k: nat, end: nat, greedy: bool)
    requires k > 0 && lo + LenOptional(node, k) <= |p| && OptionalsAt(p, lo, node, k, end, greedy)
    requires SegmentOptional(p, lo + 1 + Len(node), node, k - 1, end, greedy)
    ensures SegmentOptional(p, lo, node, k, end, greedy)
  {
    var at := lo + LenOptional(node, 0);
    assert OptionalAt(p, at, node, end, greedy);
    assert at == lo;
  }

  lemma {:induction false} OptionalStep(node: Node, k: nat)
    ensures LenOptional(node, k + 1) == LenOptional(node, k) + Len(node) + 1
  {
  }

  lemma {:induction false} OptionalGrows(node: Node, i: nat, j: nat)
    requires i < j
    ensures LenOptional(node, i) + Len(node) + 1 <= LenOptional(node, j)
    decreases j
  {
    if i + 1 < j {
      OptionalGrows(node, i, j - 1);
    }
  }

  /** The `j`th optional copy is in place at its recorded address, its split patched or not. */
  ghost predicate PendingAt(p: Program, base: nat, node: Node, splits: seq<(nat, nat)>, j: nat,
                            done: nat, end: nat, greedy: bool)
    requires j < |splits|
  {
    var at := base + LenOptional(node, j);
    && splits[j] == (at, at + 1)
    && at < |p|
    && Segment(p, at + 1, node)
    && (if j < done then p[at] == Choice(at + 1, end, greedy) else p[at].Split?)
  }

  /** All recorded copies are in place, the splits of the first `done` patched. */
  ghost predicate Pending(p: Program, base: nat, node: Node, splits: seq<(nat, nat)>, done: nat, end: nat, greedy: bool) {
    forall j: nat | j < |splits| :: PendingAt(p, base, node, splits, j, done, end, greedy)
  }

  lemma {:induction false} EmitKeepsPending(p: Program, q: Program, base: nat, node: Node, splits: seq<(nat, nat)>)
    requires Pending(p, base, node, splits, 0, 0, false)
    requires p < q && |p| == base + LenOptional(node, |splits|) && |q| == |p| + 1 + Len(node)
    requires q[|p|].Split? && Segment(q, |p| + 1, node)
    ensures Pending(q, base, node, splits + [(|p|, |p| + 1)], 0, 0, false)
  {
    var after := splits + [(|p|, |p| + 1)];
    forall j: nat | j < |after|
      ensures PendingAt(q, base, node, after, j, 0, 0, false)
    {
      if j < |splits| {
        assert PendingAt(p, base, node, splits, j, 0, 0, false);
        SegmentFrame(p, q, base + LenOptional(node, j) + 1, node);
      }
    }
  }

  lemma {:induction false} PatchKeepsPending(p: Program, q: Program, base: nat, node: Node, splits: seq<(nat, nat)>,
                                             i: nat, end: nat, greedy: bool)
    requires Pending(p, base, node, splits, i, end, greedy) && i < |splits|
    requires splits[i].0 < |p| && q == p[splits[i].0 := Choice(splits[i].1, end, greedy)]
    ensures Pending(q, base, node, splits, i + 1, end, greedy)
  {
    assert PendingAt(p, base, node, splits, i, i, end, greedy);
    var done := i + 1;
    forall j: nat | j < |splits|
      ensures PendingAt(q, base, node, splits, j, done, end, greedy)
    {
      assert PendingAt(p, base, node, splits, j, i, end, greedy);
      OptionalsApart(node, j, i);
      PatchKeepsOne(p, q, base, node, splits, i, j, end, greedy);
    }
  }

  /** Patching the split of copy `i` leaves copy `j` in place. */
  lemma {:induction false} PatchKeepsOne(p: Program, q: Program, base: nat, node: Node, splits: seq<(nat, nat)>,
                                         i: nat, j: nat, end: nat, greedy: bool)
    requires i < |splits| && j < |splits| && PendingAt(p, base, node, splits, j, i, end, greedy)
    requires var at := base + LenOptional(node, i); at < |p| && q == p[at := Choice(at + 1, end, greedy)]
    requires var (low, high) := (LenOptional(node, i), LenOptional(node, j));
             i == j || low + Len(node) < high || high + Len(node) < low
    ensures PendingAt(q, base, node, splits, j, i + 1, end, greedy)
  {
    SegmentFrame(p, q, base + LenOptional(node, j) + 1, node);
  }

  lemma {:induction false} OptionalsApart(node: Node, i: nat, j: nat)
    ensures i == j || LenOptional(node, i) + Len(node) < LenOptional(node, j)
                   || LenOptional(node, j) + Len(node) < LenOptional(node, i)
  {
    if i < j {
      OptionalGrows(node, i, j);
    } else if j < i {
      OptionalGrows(node, j, i);
    }
  }

  lemma {:induction false} PendingAnyEnd(p: Program, base: nat, node: Node, splits: seq<(nat, nat)>, end: nat, greedy: bool)
    requires Pending(p, base, node, splits, 0, 0, false)
    ensures Pending(p, base, node, splits, 0, end, greedy)
  {
    forall j: nat | j < |splits|
      ensures PendingAt(p, base, node, splits, j, 0, end, greedy)
    {
      assert PendingAt(p, base, node, splits, j, 0, 0, false);
    }
  }

  lemma {:induction false} PatchedIsOptional(p: Program, base: nat, node: Node, splits: seq<(nat, nat)>, end: nat, greedy: bool)
    requires Pending(p, base, node, splits, |splits|, end, greedy)
    requires base + LenOptional(node, |splits|) <= |p|
    ensures SegmentOptional(p, base, node, |splits|, end, greedy)
  {
    var k := |splits|;
    forall j: nat | j < k
      ensures OptionalAt(p, base + LenOptional(node, j), node, end, greedy)
    {
      assert PendingAt(p, base, node, splits, j, k, end, greedy);
    }
    AssembleOptional(p, base, node, |splits|, end, greedy);
  }

  class Compiler {
    var prog: Program

    constructor ()
      ensures prog == []
    {
      prog := [];
    }

    method Emit(inst: Inst)
      modifies this
      ensures prog == old(prog) + [inst]
    {
      prog := prog + [inst];
    }

    /** Fills in a split so that the preferred branch comes first. */
    method PatchSplit(at: nat, body: nat, skip: nat, greedy: bool)
      requires at < |prog| && prog[at].Split?
      modifies this
      ensures prog == old(prog)[at := Choice(body, skip, greedy)]
    {
      if greedy {
        prog := prog[at := Split(body, skip)];
      } else {
        prog := prog[at := Split(skip, body)];
      }
    }

    method CompileNode(node: Node, ghost groups: nat)
      requires WellFormed(node, groups)
      modifies this
      ensures old(prog) <= prog && |prog| == |old(prog)| + Len(node)
      ensures Segment(prog, |old(prog)|, node)
      decreases node, 0
    {
      match node
      case Empty =>
      case Atom(t) => Emit(Check(t));
      case Concat(nodes) => CompileConcat(nodes, groups);
      case Alt(branches) => CompileAlt(branches, groups);
      case Repeat(n, min, max, greedy) => CompileRepeat(n, min, max, greedy, groups);
      case Group(index, n) =>
        if index.Some? {
          CompileCapture(index.value, n, groups);
        } else {
          CompileNode(n, groups);
        }
    }

    method CompileCapture(index: nat, node: Node, ghost groups: nat)
      requires WellFormed(node, groups)
      modifies this
      ensures old(prog) <= prog && |prog| == |old(prog)| + Len(node) + 2
      ensures prog[|old(prog)|] == Save(2 * index) && prog[|prog| - 1] == Save(2 * index + 1)
      ensures Segment(prog, |old(prog)| + 1, node)
      decreases node, 1
    {
      Emit(Save(index * 2));
      CompileNode(node, groups);
      ghost var before := prog;
      Emit(Save(index * 2 + 1));
      SegmentFrame(before, prog, |old(prog)| + 1, node);
    }

    method CompileConcat(nodes: seq<Node>, ghost groups: nat)
      requires AllWellFormed(nodes, groups)
      modifies this
      ensures old(prog) <= prog && |prog| == |old(prog)| + LenSeq(nodes)
      ensures SegmentSeq(prog, |old(prog)|, nodes)
      decreases nodes, 0
    {
      ghost var base := |prog|;
      var i := 0;
      while i < |nodes|
        invariant 0 <= i <= |nodes|
        invariant old(prog) <= prog && |prog| == base + LenSeq(nodes[..i])
        invariant SegmentSeq(prog, base, nodes[..i])
      {
        ghost var before := prog;
        WellFormedAt(nodes, groups, i);
        CompileNode(nodes[i], groups);
        SegmentSeqFrame(before, prog, base, nodes[..i]);
        AppendSegment(prog, base, nodes[..i], nodes[i]);
        assert nodes[..i] + [nodes[i]] == nodes[..i + 1];
        i := i + 1;
      }
      assert nodes[..i] == nodes;
    }

    method CompileAlt(branches: seq<Node>, ghost groups: nat)
      requires branches != [] && AllWellFormed(branches, groups)
      modifies this
      ensures old(prog) <= prog && |prog| == |old(prog)| + LenAlt(branches)
      ensures SegmentAlt(prog, |old(prog)|, branches)
      decreases branches, 0
    {
      if |branches| == 1 {
        CompileNode(branches[0], groups);
        return;
      }
      var jmp := CompileBranch(branches[0], groups);
      ghost var first := prog;
      CompileAlt(branches[1..], groups);
      ghost var rest := prog;
      var end := |prog|;
      prog := prog[jmp := Jmp(end)];
      AssembleAlt(first, rest, prog, |old(prog)|, jmp, branches);
    }

    /** A branch with others after it: a split to it or past it, and a jump whose target is not known yet. */
    method CompileBranch(branch: Node, ghost groups: nat) returns (jmp: nat)
      requires WellFormed(branch, groups)
      modifies this
      ensures old(prog) <= prog && jmp == |old(prog)| + 1 + Len(branch) == |prog| - 1
      ensures prog[|old(prog)|] == Split(|old(prog)| + 1, jmp + 1) && Segment(prog, |old(prog)| + 1, branch)
      decreases branch, 1
    {
      var split := |prog|;
      Emit(Split(0, 0));
      var l1 := |prog|;
      CompileNode(branch, groups);
      ghost var before := prog;
      jmp := |prog|;
      Emit(Jmp(0));
      var l2 := |prog|;
      prog := prog[split := Split(l1, l2)];
      SegmentFrame(before, prog, l1, branch);
    }

    method CompileRepeat(node: Node, min: nat, max: Option<nat>, greedy: bool, ghost groups: nat)
      requires WellFormed(node, groups)
      modifies this
      ensures old(prog) <= prog
      ensures |prog| == |old(prog)| + LenCopies(node, min) + LenTail(node, Extra(min, max))
      ensures SegmentCopies(prog, |old(prog)|, node, min)
      ensures SegmentTail(prog, |old(prog)| + LenCopies(node, min), node, Extra(min, max), greedy)
      decreases node, 4
    {
      CompileCopies(node, min, groups);
      ghost var copies := prog;
      CompileTail(node, Extra(min, max), greedy, groups);
      SegmentCopiesFrame(copies, prog, |old(prog)|, node, min);
    }

    method CompileTail(node: Node, extra: Option<nat>, greedy: bool, ghost groups: nat)
      requires WellFormed(node, groups)
      modifies this
      ensures old(prog) <= prog && |prog| == |old(prog)| + LenTail(node, extra)
      ensures SegmentTail(prog, |old(prog)|, node, extra, greedy)
      decreases node, 3
    {
      match extra
      case None => CompileLoop(node, greedy, groups);
      case Some(k) => CompileOptional(node, k, greedy, groups);
    }

    method CompileCopies(node: Node, min: nat, ghost groups: nat)
      requires WellFormed(node, groups)
      modifies this
      ensures old(prog) <= prog && |prog| == |old(prog)| + LenCopies(node, min)
      ensures SegmentCopies(prog, |old(prog)|, node, min)
      decreases node, 1
    {
      ghost var base := |prog|;
      for i := 0 to min
        invariant old(prog) <= prog && |prog| == base + LenCopies(node, i)
        invariant SegmentCopies(prog, base, node, i)
      {
        ghost var before := prog;
        CompileNode(node, groups);
        SegmentCopiesFrame(before, prog, base, node, i);
        AppendCopy(prog, base, node, i);
      }
    }

    /** The unbounded tail: a split, the body, and a jump back to the split. */
    method CompileLoop(node: Node, greedy: bool, ghost groups: nat)
      requires WellFormed(node, groups)
      modifies this
      ensures old(prog) <= prog && |prog| == |old(prog)| + Len(node) + 2
      ensures SegmentLoop(prog, |old(prog)|, node, greedy)
      decreases node, 1
    {
      var l1 := |prog|;
      Emit(Split(0, 0));
      var body := |prog|;
      CompileNode(node, groups);
      ghost var before := prog;
      Emit(Jmp(l1));
      var end := |prog|;
      PatchSplit(l1, body, end, greedy);
      SegmentFrame(before, prog, body, node);
    }

    /** `k` optional copies, each guarded by a split that is patched once the end is known. */
    method CompileOptional(node: Node, k: nat, greedy: bool, ghost groups: nat)
      requires WellFormed(node, groups)
      modifies this
      ensures old(prog) <= prog && |prog| == |old(prog)| + LenOptional(node, k)
      ensures SegmentOptional(prog, |old(prog)|, node, k, |prog|, greedy)
      decreases node, 2
    {
      ghost var base := |prog|;
      var splits := EmitOptional(node, k, groups);
      var end := |prog|;
      PendingAnyEnd(prog, base, node, splits, end, greedy);
      for i := 0 to k
        invariant |prog| == end && old(prog) <= prog
        invariant Pending(prog, base, node, splits, i, end, greedy)
      {
        ghost var before := prog;
        assert PendingAt(prog, base, node, splits, i, i, end, greedy);
        PatchSplit(splits[i].0, splits[i].1, end, greedy);
        PatchKeepsPending(before, prog, base, node, splits, i, end, greedy);
      }
      PatchedIsOptional(prog, base, node, splits, end, greedy);
    }

    method EmitOptional(node: Node, k: nat, ghost groups: nat) returns (splits: seq<(nat, nat)>)
      requires WellFormed(node, groups)
      modifies this
      ensures old(prog) <= prog && |prog| == |old(prog)| + LenOptional(node, k) && |splits| == k
      ensures Pending(prog, |old(prog)|, node, splits, 0, 0, false)
      decreases node, 1
    {
      ghost var base := |prog|;
      splits := [];
      for i := 0 to k
        invariant old(prog) <= prog && |prog| == base + LenOptional(node, i) && |splits| == i
        invariant Pending(prog, base, node, splits, 0, 0, false)
      {
        ghost var before := prog;
        var split := |prog|;
        Emit(Split(0, 0));
        var body := |prog|;
        CompileNode(node, groups);
        EmitKeepsPending(before, prog, base, node, splits);
        OptionalStep(node, i);
        splits := splits + [(split, body)];
      }
    }

    /** A whole program: the match bounds are group 0. */
    method CompileRegex(ast: Node, ghost groups: nat)
      requires WellFormed(ast, groups) && prog == []
      modifies this
      ensures Compiled(prog, ast)
    {
      Emit(Save(0));
      CompileNode(ast, groups);
      ghost var before := prog;
      Emit(Save(1));
      Emit(Match);
      SegmentFrame(before, prog, 1, ast);
    }
  }

  ghost predicate Compiled(p: Program, ast: Node) {
    && |p| == Len(ast) + 3
    && p[0] == Save(0)
    && Segment(p, 1, ast)
    && p[1 + Len(ast)] == Save(1)
    && p[2 + Len(ast)] == Match
  }
}
