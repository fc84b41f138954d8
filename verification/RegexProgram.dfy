/** Byte-code programs and the compiler that emits them with back-patched jump targets. */
module RegexProgram {
  import opened Options
  import opened RegexSyntax

  datatype Inst =
    | Check(test: Test)
    | Save(slot: nat)
    | Jmp(target: nat)
    | Split(first: nat, second: nat)
    | Match

  type Program = seq<Inst>

  /** The split of a quantifier: the body is preferred when greedy, the way out when lazy. */
  function Choice(body: nat, skip: nat, greedy: bool): Inst {
    if greedy then Split(body, skip) else Split(skip, body)
  }

  /** Copies of a repeat's body beyond the mandatory ones; `None` when unbounded. */
  function Extra(min: nat, max: Option<nat>): Option<nat> {
    if max.None? then None else Some(if max.value > min then max.value - min else 0)
  }

  /** Number of instructions emitted for a node, and for the pieces it is made of. */
  function Len(node: Node): nat
    decreases node, 0
  {
    match node
    case Empty => 0
    case Atom(_) => 1
    case Concat(nodes) => LenSeq(nodes)
    case Alt(branches) => LenAlt(branches)
    case Repeat(n, min, max, _) => LenCopies(n, min) + LenTail(n, Extra(min, max))
    case Group(index, n) => if index.Some? then Len(n) + 2 else Len(n)
  }

  function LenSeq(nodes: seq<Node>): nat
    decreases nodes, 0
  {
    if nodes == [] then 0 else Len(nodes[0]) + LenSeq(nodes[1..])
  }

  function LenAlt(branches: seq<Node>): nat
    decreases branches, 0
  {
    if branches == [] then 0
    else if |branches| == 1 then Len(branches[0])
    else Len(branches[0]) + 2 + LenAlt(branches[1..])
  }

  function LenCopies(node: Node, k: nat): nat
    decreases node, k + 1
  {
    if k == 0 then 0 else Len(node) + LenCopies(node, k - 1)
  }

  function LenOptional(node: Node, k: nat): nat
    decreases node, k + 1
  {
    if k == 0 then 0 else Len(node) + 1 + LenOptional(node, k - 1)
  }

  function LenTail(node: Node, extra: Option<nat>): nat
    decreases node, (if extra.Some? then extra.value else 0) + 2
  {
    if extra.None? then Len(node) + 2 else LenOptional(node, extra.value)
  }

  /** `p[lo..lo + Len(node)]` is the code of `node`: what the compiler must emit at `lo`. */
  ghost predicate Segment(p: Program, lo: nat, node: Node)
    decreases node, 0
  {
    lo + Len(node) <= |p| &&
    match node
    case Empty => true
    case Atom(t) => p[lo] == Check(t)
    case Concat(nodes) => SegmentSeq(p, lo, nodes)
    case Alt(branches) => SegmentAlt(p, lo, branches)
    case Repeat(n, min, max, greedy) =>
      SegmentCopies(p, lo, n, min) && SegmentTail(p, lo + LenCopies(n, min), n, Extra(min, max), greedy)
    case Group(index, n) =>
      if index.None? then Segment(p, lo, n)
      else p[lo] == Save(2 * index.value)
           && Segment(p, lo + 1, n)
           && p[lo + 1 + Len(n)] == Save(2 * index.value + 1)
  }

  ghost predicate SegmentSeq(p: Program, lo: nat, nodes: seq<Node>)
    decreases nodes, 0
  {
    && lo + LenSeq(nodes) <= |p|
    && (nodes != [] ==> Segment(p, lo, nodes[0]) && SegmentSeq(p, lo + Len(nodes[0]), nodes[1..]))
  }

  ghost predicate SegmentAlt(p: Program, lo: nat, branches: seq<Node>)
    decreases branches, 0
  {
    && lo + LenAlt(branches) <= |p|
    && (|branches| == 1 ==> Segment(p, lo, branches[0]))
    && (|branches| > 1 ==>
          var jmp := lo + 1 + Len(branches[0]);
          && p[lo] == Split(lo + 1, jmp + 1)
          && Segment(p, lo + 1, branches[0])
          && p[jmp] == Jmp(lo + LenAlt(branches))
          && SegmentAlt(p, jmp + 1, branches[1..]))
  }

  ghost predicate SegmentCopies(p: Program, lo: nat, node: Node, k: nat)
    decreases node, k + 1
  {
    && lo + LenCopies(node, k) <= |p|
    && (k > 0 ==> Segment(p, lo, node) && SegmentCopies(p, lo + Len(node), node, k - 1))
  }

  ghost predicate SegmentTail(p: Program, lo: nat, node: Node, extra: Option<nat>, greedy: bool)
    decreases node, (if extra.Some? then extra.value else 0) + 2
  {
    match extra
    case None => SegmentLoop(p, lo, node, greedy)
    case Some(k) => SegmentOptional(p, lo, node, k, lo + LenOptional(node, k), greedy)
  }

  ghost predicate SegmentLoop(p: Program, lo: nat, node: Node, greedy: bool)
    decreases node, 1
  {
    && lo + Len(node) + 2 <= |p|
    && p[lo] == Choice(lo + 1, lo + Len(node) + 2, greedy)
    && Segment(p, lo + 1, node)
    && p[lo + 1 + Len(node)] == Jmp(lo)
  }

  ghost predicate SegmentOptional(p: Program, lo: nat, node: Node, k: nat, end: nat, greedy: bool)
    decreases node, k + 1
  {
    && lo + LenOptional(node, k) <= |p|
    && (k > 0 ==>
          && p[lo] == Choice(lo + 1, end, greedy)
          && Segment(p, lo + 1, node)
          && SegmentOptional(p, lo + 1 + Len(node), node, k - 1, end, greedy))
  }

  /** A segment is determined by the instructions inside it. */
  ghost predicate SameCode(p: Program, q: Program, lo: nat, hi: nat) {
    hi <= |p| && hi <= |q| && forall i :: lo <= i < hi ==> p[i] == q[i]
  }

  lemma {:induction false} SegmentFrame(p: Program, q: Program, lo: nat, node: Node)
    requires Segment(p, lo, node) && SameCode(p, q, lo, lo + Len(node))
    ensures Segment(q, lo, node)
    decreases node, 1
  {
    match node
    case Empty =>
    case Atom(_) =>
    case Concat(nodes) => SegmentSeqFrame(p, q, lo, nodes);
    case Alt(branches) => SegmentAltFrame(p, q, lo, branches);
    case Repeat(n, min, max, greedy) =>
      SegmentCopiesFrame(p, q, lo, n, min);
      SegmentTailFrame(p, q, lo + LenCopies(n, min), n, Extra(min, max), greedy);
    case Group(None, n) => SegmentFrame(p, q, lo, n);
    case Group(Some(_), n) => SegmentGroupFrame(p, q, lo, node);
  }

  lemma {:induction false} SegmentGroupFrame(p: Program, q: Program, lo: nat, node: Node)
    requires node.Group? && node.index.Some? && Segment(p, lo, node) && SameCode(p, q, lo, lo + Len(node))
    ensures Segment(q, lo, node)
    decreases node, 0
  {
    var n := node.inner;
    assert Len(node) == Len(n) + 2;
    SegmentFrame(p, q, lo + 1, n);
  }

  lemma {:induction false} SegmentSeqFrame(p: Program, q: Program, lo: nat, nodes: seq<Node>)
    requires SegmentSeq(p, lo, nodes) && SameCode(p, q, lo, lo + LenSeq(nodes))
    ensures SegmentSeq(q, lo, nodes)
    decreases nodes, 0
  {
    if nodes != [] {
      SegmentFrame(p, q, lo, nodes[0]);
      SegmentSeqFrame(p, q, lo + Len(nodes[0]), nodes[1..]);
    }
  }

  lemma {:induction false} SegmentAltFrame(p: Program, q: Program, lo: nat, branches: seq<Node>)
    requires SegmentAlt(p, lo, branches) && SameCode(p, q, lo, lo + LenAlt(branches))
    ensures SegmentAlt(q, lo, branches)
    decreases branches, 0
  {
    if |branches| == 1 {
      SegmentFrame(p, q, lo, branches[0]);
    } else if |branches| > 1 {
      SegmentFrame(p, q, lo + 1, branches[0]);
      SegmentAltFrame(p, q, lo + 2 + Len(branches[0]), branches[1..]);
    }
  }

  lemma {:induction false} SegmentCopiesFrame(p: Program, q: Program, lo: nat, node: Node, k: nat)
    requires SegmentCopies(p, lo, node, k) && SameCode(p, q, lo, lo + LenCopies(node, k))
    ensures SegmentCopies(q, lo, node, k)
    decreases node, k + 2
  {
    if k > 0 {
      SegmentFrame(p, q, lo, node);
      SegmentCopiesFrame(p, q, lo + Len(node), node, k - 1);
    }
  }

  lemma {:induction false} SegmentTailFrame(p: Program, q: Program, lo: nat, node: Node, extra: Option<nat>, greedy: bool)
    requires SegmentTail(p, lo, node, extra, greedy) && SameCode(p, q, lo, lo + LenTail(node, extra))
    ensures SegmentTail(q, lo, node, extra, greedy)
    decreases node, (if extra.Some? then extra.value else 0) + 3
  {
    match extra
    case None => SegmentFrame(p, q, lo + 1, node);
    case Some(k) => SegmentOptionalFrame(p, q, lo, node, k, lo + LenOptional(node, k), greedy);
  }

  lemma {:induction false} SegmentOptionalFrame(p: Program, q: Program, lo: nat, node: Node, k: nat, end: nat, greedy: bool)
    requires SegmentOptional(p, lo, node, k, end, greedy) && SameCode(p, q, lo, lo + LenOptional(node, k))
    ensures SegmentOptional(q, lo, node, k, end, greedy)
    decreases node, k + 2
  {
    if k > 0 {
      SegmentFrame(p, q, lo + 1, node);
      SegmentOptionalFrame(p, q, lo + 1 + Len(node), node, k - 1, end, greedy);
    }
  }
}
