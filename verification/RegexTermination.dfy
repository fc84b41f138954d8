/** When the executor halts: a measure over remaining text, inactive keys and a rank of the
    program counter, and the construction of such a rank for every guarded pattern. */
module RegexTermination {
  import opened Options
  import opened RegexSyntax
  import opened RegexProgram
  import opened RegexCompiler
  import opened RegexExec

  /** Jump targets and save slots are in bounds, and the rank falls along every move that neither
      takes a character nor enters the first branch of a split. */
  ghost predicate RankedAt(p: Program, rank: seq<nat>, slots: nat, pc: nat)
    requires pc < |p| && |rank| == |p|
  {
    match p[pc]
    case Match => true
    case Check(t) => pc + 1 < |p| && (TakesChar(t) || rank[pc + 1] < rank[pc])
    case Save(slot) => slot < slots && pc + 1 < |p| && rank[pc + 1] < rank[pc]
    case Jmp(target) => target < |p| && rank[target] < rank[pc]
    case Split(a, b) => a < |p| && b < |p| && rank[b] < rank[pc]
  }

  ghost predicate Ranked(p: Program, rank: seq<nat>, slots: nat) {
    |rank| == |p| && forall pc: nat | pc < |p| :: RankedAt(p, rank, slots, pc)
  }

  ghost function AllKeys(p: Program, s: Text): set<Key> {
    set pc: nat, pos: nat | pc < |p| && pos <= |s.chars| :: (pc, pos)
  }

  /** Splits that can still be entered. */
  ghost function Inactive(p: Program, s: Text, active: set<Key>): nat {
    |AllKeys(p, s) - active|
  }

  lemma {:induction false} EnteringUsesAKey(p: Program, s: Text, key: Key, active: set<Key>)
    requires key.0 < |p| && key.1 <= |s.chars| && key !in active
    ensures Inactive(p, s, active + {key}) < Inactive(p, s, active)
  {
    assert key in AllKeys(p, s);
    assert AllKeys(p, s) - (active + {key}) == AllKeys(p, s) - active - {key};
  }

  lemma {:induction false} SplitHalts(p: Program, s: Text, first: nat, second: nat, pc: nat, pos: nat, saves: Saves,
                                      active: set<Key>)
    requires pc < |p| && p[pc].Split? && pos <= |s.chars| && (pc, pos) !in active
    requires Run(p, s, first, p[pc].first, pos, saves, active + {(pc, pos)}) != Unfinished
    requires Run(p, s, second, p[pc].second, pos, saves, active) != Unfinished
    ensures Run(p, s, first + second + 1, pc, pos, saves, active) != Unfinished
  {
    RunMonotone(p, s, first, first + second, p[pc].first, pos, saves, active + {(pc, pos)});
    RunMonotone(p, s, second, first + second, p[pc].second, pos, saves, active);
  }

  /** One more step in front of a run that halts. */
  lemma {:induction false} MoveHalts(p: Program, s: Text, next: nat, pc: nat, pos: nat, saves: Saves, active: set<Key>)
    requires pc < |p| && pos <= |s.chars|
    requires match p[pc]
             case Match => true
             case Check(t) => Passes(t, s, pos) ==> Run(p, s, next, pc + 1, pos + Width(t), saves, active) != Unfinished
             case Save(slot) => slot < |saves| && Run(p, s, next, pc + 1, pos, saves[slot := Some(pos)], active) != Unfinished
             case Jmp(target) => Run(p, s, next, target, pos, saves, active) != Unfinished
             case Split(_, b) => (pc, pos) in active && Run(p, s, next, b, pos, saves, active) != Unfinished
    ensures Run(p, s, next + 1, pc, pos, saves, active) != Unfinished
  {
  }

  /** From `from` on the program is ranked and never jumps back before it. */
  ghost predicate RankedFrom(p: Program, rank: seq<nat>, slots: nat, from: nat) {
    && |rank| == |p|
    && forall pc: nat | from <= pc < |p| :: RankedAt(p, rank, slots, pc) && StaysFrom(p, from, pc)
  }

  predicate StaysFrom(p: Program, from: nat, pc: nat)
    requires pc < |p|
  {
    match p[pc]
    case Jmp(target) => from <= target
    case Split(a, b) => from <= a && from <= b
    case _ => true
  }

  /** The executor halts on every text from every state of a ranked program, or of the ranked end of one. */
  lemma {:induction false} RankedHalts(p: Program, s: Text, rank: seq<nat>, from: nat, pc: nat, pos: nat, saves: Saves,
                                       active: set<Key>)
    returns (fuel: nat)
    requires RankedFrom(p, rank, |saves|, from) && from <= pc < |p| && pos <= |s.chars|
    ensures Run(p, s, fuel, pc, pos, saves, active) != Unfinished
    decreases |s.chars| - pos, Inactive(p, s, active), rank[pc]
  {
    assert RankedAt(p, rank, |saves|, pc) && StaysFrom(p, from, pc);
    var next := 0;
    match p[pc] {
      case Match =>
      case Check(t) =>
        if Passes(t, s, pos) {
          next := RankedHalts(p, s, rank, from, pc + 1, pos + Width(t), saves, active);
        }
      case Save(slot) => next := RankedHalts(p, s, rank, from, pc + 1, pos, saves[slot := Some(pos)], active);
      case Jmp(target) => next := RankedHalts(p, s, rank, from, target, pos, saves, active);
      case Split(a, b) =>
        next := RankedHalts(p, s, rank, from, b, pos, saves, active);
        if (pc, pos) !in active {
          EnteringUsesAKey(p, s, (pc, pos), active);
          var first := RankedHalts(p, s, rank, from, a, pos, saves, active + {(pc, pos)});
          SplitHalts(p, s, first, next, pc, pos, saves, active);
          return first + next + 1;
        }
    }
    MoveHalts(p, s, next, pc, pos, saves, active);
    fuel := next + 1;
  }

  /** Rank of a node's first instruction when the instruction after it has rank `r`. */
  ghost function Entry(node: Node, r: nat): nat
    decreases node, 0
  {
    match node
    case Empty => r
    case Atom(t) => if TakesChar(t) then 0 else r + 1
    case Concat(nodes) => EntrySeq(nodes, r)
    case Alt(branches) => EntryAlt(branches, r)
    case Repeat(n, min, max, greedy) => EntryCopies(n, min, EntryTail(n, Extra(min, max), greedy, r))
    case Group(index, n) => if index.Some? then Entry(n, r + 1) + 1 else Entry(n, r)
  }

  ghost function EntrySeq(nodes: seq<Node>, r: nat): nat
    decreases nodes, 0
  {
    if nodes == [] then r else Entry(nodes[0], EntrySeq(nodes[1..], r))
  }

  ghost function EntryAlt(branches: seq<Node>, r: nat): nat
    decreases branches, 0
  {
    if branches == [] then r
    else if |branches| == 1 then Entry(branches[0], r)
    else EntryAlt(branches[1..], r) + 1
  }

  ghost function EntryCopies(node: Node, k: nat, r: nat): nat
    decreases node, k + 1
  {
    if k == 0 then r else Entry(node, EntryCopies(node, k - 1, r))
  }

  ghost function EntryTail(node: Node, extra: Option<nat>, greedy: bool, r: nat): nat
    decreases node, (if extra.Some? then extra.value else 0) + 2
  {
    match extra
    case None => if greedy then r + 1 else Entry(node, 0) + 1
    case Some(k) => EntryOptional(node, k, greedy, r)
  }

  ghost function EntryOptional(node: Node, k: nat, greedy: bool, r: nat): nat
    decreases node, k + 1
  {
    if k == 0 then r
    else if greedy then r + 1
    else Entry(node, EntryOptional(node, k - 1, greedy, r)) + 1
  }

  /** A node that cannot be fallen through has the same entry rank whatever follows it. */
  lemma {:induction false} EntryIsFixed(node: Node, groups: nat, r: nat, q: nat)
    requires WellFormed(node, groups) && !FallsThrough(node)
    ensures Entry(node, r) == Entry(node, q)
    decreases node, 0
  {
    match node
    case Empty =>
    case Atom(_) =>
    case Concat(nodes) => EntrySeqIsFixed(nodes, groups, r, q);
    case Alt(branches) => EntryAltIsFixed(branches, groups, r, q);
    case Repeat(n, min, max, greedy) =>
      var extra := Extra(min, max);
      if !FallsThrough(n) && extra.Some? && extra.value > 0 && !greedy {
        EntryOptionalIsFixed(n, groups, extra.value, r, q);
      }
      EntryCopiesIsFixed(n, groups, min, EntryTail(n, extra, greedy, r), EntryTail(n, extra, greedy, q));
    case Group(index, n) =>
      EntryIsFixed(n, groups, r, q);
      EntryIsFixed(n, groups, r + 1, q + 1);
  }

  lemma {:induction false} EntrySeqIsFixed(nodes: seq<Node>, groups: nat, r: nat, q: nat)
    requires AllWellFormed(nodes, groups) && !AllFallThrough(nodes)
    ensures EntrySeq(nodes, r) == EntrySeq(nodes, q)
    decreases nodes, 0
  {
    if FallsThrough(nodes[0]) {
      EntrySeqIsFixed(nodes[1..], groups, r, q);
    } else {
      EntryIsFixed(nodes[0], groups, EntrySeq(nodes[1..], r), EntrySeq(nodes[1..], q));
    }
  }

  lemma {:induction false} EntryAltIsFixed(branches: seq<Node>, groups: nat, r: nat, q: nat)
    requires branches != [] && AllWellFormed(branches, groups) && !LastFallsThrough(branches)
    ensures EntryAlt(branches, r) == EntryAlt(branches, q)
    decreases branches, 0
  {
    if |branches| == 1 {
      EntryIsFixed(branches[0], groups, r, q);
    } else {
      EntryAltIsFixed(branches[1..], groups, r, q);
    }
  }

  lemma {:induction false} EntryCopiesIsFixed(node: Node, groups: nat, k: nat, r: nat, q: nat)
    requires WellFormed(node, groups) && (r == q || (k > 0 && !FallsThrough(node)))
    ensures EntryCopies(node, k, r) == EntryCopies(node, k, q)
    decreases node, k + 1
  {
    if r != q {
      EntryIsFixed(node, groups, EntryCopies(node, k - 1, r), EntryCopies(node, k - 1, q));
    }
  }

  lemma {:induction false} EntryOptionalIsFixed(node: Node, groups: nat, k: nat, r: nat, q: nat)
    requires WellFormed(node, groups) && !FallsThrough(node) && k > 0
    ensures EntryOptional(node, k, false, r) == EntryOptional(node, k, false, q)
    decreases node, k + 1
  {
    EntryIsFixed(node, groups, EntryOptional(node, k - 1, false, r), EntryOptional(node, k - 1, false, q));
  }

  /** The move out of `pc` stays within `[lo, hi]` and obeys the rank. */
  ghost predicate LocallyRanked(p: Program, rank: seq<nat>, slots: nat, lo: nat, hi: nat, pc: nat)
    requires pc < hi < |p| && |rank| == |p|
  {
    && RankedAt(p, rank, slots, pc)
    && match p[pc]
       case Jmp(target) => lo <= target <= hi
       case Split(a, b) => lo <= a <= hi && lo <= b <= hi
       case _ => !p[pc].Match?
  }

  ghost predicate RankedIn(p: Program, rank: seq<nat>, slots: nat, lo: nat, hi: nat) {
    && |rank| == |p|
    && hi < |p|
    && forall pc: nat | lo <= pc < hi :: LocallyRanked(p, rank, slots, lo, hi, pc)
  }

  ghost predicate SameOutside(rank: seq<nat>, rank': seq<nat>, lo: nat, hi: nat) {
    |rank| == |rank'| && forall i: nat | i < |rank| && !(lo <= i < hi) :: rank[i] == rank'[i]
  }

  /** Ranks that agree up to and including `hi` serve equally well. */
  lemma {:induction false} Rerank(p: Program, rank: seq<nat>, rank': seq<nat>, slots: nat, lo: nat, hi: nat)
    requires RankedIn(p, rank, slots, lo, hi) && |rank'| == |rank|
    requires forall i: nat | lo <= i <= hi :: rank'[i] == rank[i]
    ensures RankedIn(p, rank', slots, lo, hi)
  {
    forall pc: nat | lo <= pc < hi
      ensures LocallyRanked(p, rank', slots, lo, hi, pc)
    {
      assert LocallyRanked(p, rank, slots, lo, hi, pc);
    }
  }

  lemma {:induction false} JoinRanks(p: Program, rank: seq<nat>, slots: nat, lo: nat, mid: nat, hi: nat)
    requires lo <= mid <= hi && RankedIn(p, rank, slots, lo, mid) && RankedIn(p, rank, slots, mid, hi)
    ensures RankedIn(p, rank, slots, lo, hi)
  {
    forall pc: nat | lo <= pc < hi
      ensures LocallyRanked(p, rank, slots, lo, hi, pc)
    {
      if pc < mid {
        assert LocallyRanked(p, rank, slots, lo, mid, pc);
      } else {
        assert LocallyRanked(p, rank, slots, mid, hi, pc);
      }
    }
  }

  /** Ranks the code of a guarded node, given the rank of the instruction after it. */
  lemma {:induction false} RankNode(p: Program, rank: seq<nat>, slots: nat, groups: nat, lo: nat, node: Node)
    returns (rank': seq<nat>)
    requires WellFormed(node, groups) && Guarded(node) && 2 * groups <= slots
    requires Segment(p, lo, node) && lo + Len(node) < |p| == |rank|
    ensures SameOutside(rank, rank', lo, lo + Len(node))
    ensures RankedIn(p, rank', slots, lo, lo + Len(node))
    ensures rank'[lo] == Entry(node, rank[lo + Len(node)])
    decreases node, 0
  {
    match node
    case Empty => rank' := rank;
    case Atom(_) => rank' := RankAtom(p, rank, slots, lo, node);
    case Concat(nodes) =>
      assert SegmentSeq(p, lo, nodes);
      rank' := RankSeq(p, rank, slots, groups, lo, nodes);
    case Alt(branches) =>
      assert SegmentAlt(p, lo, branches);
      rank' := RankAlt(p, rank, slots, groups, lo, branches);
    case Repeat(n, min, max, greedy) =>
      rank' := RankRepeat(p, rank, slots, groups, lo, lo + Len(node), n, min, Extra(min, max), greedy);
    case Group(None, n) =>
      assert Segment(p, lo, n);
      rank' := RankNode(p, rank, slots, groups, lo, n);
    case Group(Some(_), n) =>
      assert Segment(p, lo + 1, n);
      rank' := RankGroup(p, rank, slots, groups, lo, n, lo + 1 + Len(n));
  }

  lemma {:induction false} RankAtom(p: Program, rank: seq<nat>, slots: nat, lo: nat, node: Node) returns (rank': seq<nat>)
    requires node.Atom? && lo + 1 < |p| == |rank| && p[lo] == Check(node.test)
    ensures SameOutside(rank, rank', lo, lo + 1) && RankedIn(p, rank', slots, lo, lo + 1)
    ensures rank'[lo] == Entry(node, rank[lo + 1])
  {
    rank' := rank[lo := Entry(node, rank[lo + 1])];
    assert LocallyRanked(p, rank', slots, lo, lo + 1, lo);
  }

  lemma {:induction false} RankGroup(p: Program, rank: seq<nat>, slots: nat, groups: nat, lo: nat, node: Node, close: nat)
    returns (rank': seq<nat>)
    requires WellFormed(node, groups) && Guarded(node) && 2 * groups <= slots
    requires close == lo + 1 + Len(node) && close + 1 < |p| == |rank| && Segment(p, lo + 1, node)
    requires p[lo].Save? && p[lo].slot < slots && p[close].Save? && p[close].slot < slots
    ensures SameOutside(rank, rank', lo, close + 1)
    ensures RankedIn(p, rank', slots, lo, close + 1)
    ensures rank'[lo] == Entry(node, rank[close + 1] + 1) + 1
    decreases node, 1
  {
    var body := lo + 1;
    var start := rank[close := rank[close + 1] + 1];
    var after := RankNode(p, start, slots, groups, body, node);
    assert body + Len(node) == close && start[close] == rank[close + 1] + 1;
    rank' := RankSaves(p, rank, start, after, slots, lo, close);
  }

  /** The two instructions around a ranked stretch. */
  lemma {:induction false} RankSaves(p: Program, rank: seq<nat>, start: seq<nat>, after: seq<nat>, slots: nat, lo: nat, close: nat)
    returns (rank': seq<nat>)
    requires lo < close && close + 1 < |p| == |rank| == |after| && start == rank[close := rank[close + 1] + 1]
    requires p[lo].Save? && p[lo].slot < slots && p[close].Save? && p[close].slot < slots
    requires SameOutside(start, after, lo + 1, close) && RankedIn(p, after, slots, lo + 1, close)
    ensures SameOutside(rank, rank', lo, close + 1) && RankedIn(p, rank', slots, lo, close + 1)
    ensures rank'[lo] == after[lo + 1] + 1
  {
    rank' := after[lo := after[lo + 1] + 1];
    Rerank(p, after, rank', slots, lo + 1, close);
    Surround(p, rank', slots, lo, close, close + 1);
  }

  lemma {:induction false} RankRepeat(p: Program, rank: seq<nat>, slots: nat, groups: nat, lo: nat, hi: nat, node: Node,
                                      min: nat, extra: Option<nat>, greedy: bool)
    returns (rank': seq<nat>)
    requires WellFormed(node, groups) && Guarded(node) && (extra.None? && !greedy ==> !FallsThrough(node))
    requires 2 * groups <= slots && hi == lo + LenCopies(node, min) + LenTail(node, extra) < |p| == |rank|
    requires SegmentCopies(p, lo, node, min) && SegmentTail(p, lo + LenCopies(node, min), node, extra, greedy)
    ensures SameOutside(rank, rank', lo, hi) && RankedIn(p, rank', slots, lo, hi)
    ensures rank'[lo] == EntryCopies(node, min, EntryTail(node, extra, greedy, rank[hi]))
    decreases node, (if extra.Some? then extra.value else 0) + min + 3
  {
    var tail := lo + LenCopies(node, min);
    var after := RankTail(p, rank, slots, groups, tail, node, extra, greedy);
    rank' := RankCopies(p, after, slots, groups, lo, node, min);
    Rerank(p, after, rank', slots, tail, hi);
    JoinRanks(p, rank', slots, lo, tail, hi);
  }

  /** A ranked stretch with one more instruction on each side. */
  lemma {:induction false} Surround(p: Program, rank: seq<nat>, slots: nat, lo: nat, last: nat, hi: nat)
    requires lo < last && hi == last + 1 && RankedIn(p, rank, slots, lo + 1, last) && hi < |p|
    requires LocallyRanked(p, rank, slots, lo, hi, lo) && LocallyRanked(p, rank, slots, lo, hi, last)
    ensures RankedIn(p, rank, slots, lo, hi)
  {
    forall pc: nat | lo <= pc < hi
      ensures LocallyRanked(p, rank, slots, lo, hi, pc)
    {
      if lo < pc < last {
        assert LocallyRanked(p, rank, slots, lo + 1, last, pc);
      }
    }
  }

  lemma {:induction false} RankSeq(p: Program, rank: seq<nat>, slots: nat, groups: nat, lo: nat, nodes: seq<Node>)
    returns (rank': seq<nat>)
    requires AllWellFormed(nodes, groups) && AllGuarded(nodes)
    requires 2 * groups <= slots && SegmentSeq(p, lo, nodes) && lo + LenSeq(nodes) < |p| == |rank|
    ensures SameOutside(rank, rank', lo, lo + LenSeq(nodes))
    ensures RankedIn(p, rank', slots, lo, lo + LenSeq(nodes))
    ensures rank'[lo] == EntrySeq(nodes, rank[lo + LenSeq(nodes)])
    decreases nodes, 0
  {
    if nodes == [] {
      rank' := rank;
    } else {
      var mid, hi := lo + Len(nodes[0]), lo + LenSeq(nodes);
      var after := RankSeq(p, rank, slots, groups, mid, nodes[1..]);
      rank' := RankNode(p, after, slots, groups, lo, nodes[0]);
      Rerank(p, after, rank', slots, mid, hi);
      JoinRanks(p, rank', slots, lo, mid, hi);
    }
  }

  lemma {:induction false} RankAlt(p: Program, rank: seq<nat>, slots: nat, groups: nat, lo: nat, branches: seq<Node>)
    returns (rank': seq<nat>)
    requires branches != [] && AllWellFormed(branches, groups) && AllGuarded(branches)
    requires 2 * groups <= slots && SegmentAlt(p, lo, branches) && lo + LenAlt(branches) < |p| == |rank|
    ensures SameOutside(rank, rank', lo, lo + LenAlt(branches))
    ensures RankedIn(p, rank', slots, lo, lo + LenAlt(branches))
    ensures rank'[lo] == EntryAlt(branches, rank[lo + LenAlt(branches)])
    decreases branches, 0
  {
    if |branches| == 1 {
      rank' := RankNode(p, rank, slots, groups, lo, branches[0]);
    } else {
      var jmp, hi := lo + 1 + Len(branches[0]), lo + LenAlt(branches);
      var rest := RankAlt(p, rank, slots, groups, jmp + 1, branches[1..]);
      var first := RankNode(p, rest[jmp := rest[hi] + 1], slots, groups, lo + 1, branches[0]);
      rank' := first[lo := first[jmp + 1] + 1];
      Rerank(p, first, rank', slots, lo + 1, jmp);
      Rerank(p, rest, rank', slots, jmp + 1, hi);
      JoinBranches(p, rank', slots, lo, jmp, hi);
    }
  }

  lemma {:induction false} JoinBranches(p: Program, rank: seq<nat>, slots: nat, lo: nat, jmp: nat, hi: nat)
    requires lo < jmp < hi && RankedIn(p, rank, slots, lo + 1, jmp) && RankedIn(p, rank, slots, jmp + 1, hi)
    requires p[lo] == Split(lo + 1, jmp + 1) && rank[jmp + 1] < rank[lo] && p[jmp] == Jmp(hi) && rank[hi] < rank[jmp]
    ensures RankedIn(p, rank, slots, lo, hi)
  {
    forall pc: nat | lo <= pc < hi
      ensures LocallyRanked(p, rank, slots, lo, hi, pc)
    {
      if lo < pc < jmp {
        assert LocallyRanked(p, rank, slots, lo + 1, jmp, pc);
      } else if jmp < pc {
        assert LocallyRanked(p, rank, slots, jmp + 1, hi, pc);
      }
    }
  }

  lemma {:induction false} RankCopies(p: Program, rank: seq<nat>, slots: nat, groups: nat, lo: nat, node: Node, k: nat)
    returns (rank': seq<nat>)
    requires WellFormed(node, groups) && Guarded(node)
    requires 2 * groups <= slots && SegmentCopies(p, lo, node, k) && lo + LenCopies(node, k) < |p| == |rank|
    ensures SameOutside(rank, rank', lo, lo + LenCopies(node, k))
    ensures RankedIn(p, rank', slots, lo, lo + LenCopies(node, k))
    ensures rank'[lo] == EntryCopies(node, k, rank[lo + LenCopies(node, k)])
    decreases node, k + 1
  {
    if k == 0 {
      rank' := rank;
    } else {
      var mid, hi := lo + Len(node), lo + LenCopies(node, k);
      var after := RankCopies(p, rank, slots, groups, mid, node, k - 1);
      rank' := RankNode(p, after, slots, groups, lo, node);
      Rerank(p, after, rank', slots, mid, hi);
      JoinRanks(p, rank', slots, lo, mid, hi);
    }
  }

  lemma {:induction false} RankTail(p: Program, rank: seq<nat>, slots: nat, groups: nat, lo: nat, node: Node,
                                    extra: Option<nat>, greedy: bool)
    returns (rank': seq<nat>)
    requires WellFormed(node, groups) && Guarded(node) && (extra.None? && !greedy ==> !FallsThrough(node))
    requires 2 * groups <= slots && SegmentTail(p, lo, node, extra, greedy) && lo + LenTail(node, extra) < |p| == |rank|
    ensures SameOutside(rank, rank', lo, lo + LenTail(node, extra))
    ensures RankedIn(p, rank', slots, lo, lo + LenTail(node, extra))
    ensures rank'[lo] == EntryTail(node, extra, greedy, rank[lo + LenTail(node, extra)])
    decreases node, (if extra.Some? then extra.value else 0) + 2
  {
    match extra
    case None =>
      var jmp, hi := lo + 1 + Len(node), lo + Len(node) + 2;
      var loop := EntryTail(node, extra, greedy, rank[hi]);
      rank' := RankNode(p, rank[lo := loop][jmp := loop + 1], slots, groups, lo + 1, node);
      if !greedy {
        EntryIsFixed(node, groups, 0, loop + 1);
      }
      Surround(p, rank', slots, lo, jmp, hi);
    case Some(k) => rank' := RankOptional(p, rank, slots, groups, lo, node, k, lo + LenOptional(node, k), greedy);
  }

  /** A split in front of a ranked stretch. */
  lemma {:induction false} RankedSplit(p: Program, rank: seq<nat>, slots: nat, lo: nat, hi: nat)
    requires lo < hi && RankedIn(p, rank, slots, lo + 1, hi) && LocallyRanked(p, rank, slots, lo, hi, lo)
    ensures RankedIn(p, rank, slots, lo, hi)
  {
    forall pc: nat | lo <= pc < hi
      ensures LocallyRanked(p, rank, slots, lo, hi, pc)
    {
      if lo < pc {
        assert LocallyRanked(p, rank, slots, lo + 1, hi, pc);
      }
    }
  }

  lemma {:induction false} RankOptional(p: Program, rank: seq<nat>, slots: nat, groups: nat, lo: nat, node: Node,
                                        k: nat, end: nat, greedy: bool)
    returns (rank': seq<nat>)
    requires WellFormed(node, groups) && Guarded(node)
    requires 2 * groups <= slots && SegmentOptional(p, lo, node, k, end, greedy)
    requires end == lo + LenOptional(node, k) < |p| == |rank|
    ensures SameOutside(rank, rank', lo, end)
    ensures RankedIn(p, rank', slots, lo, end)
    ensures rank'[lo] == EntryOptional(node, k, greedy, rank[end])
    decreases node, k + 1
  {
    if k == 0 {
      rank' := rank;
    } else {
      var next := lo + 1 + Len(node);
      var rest := RankOptional(p, rank, slots, groups, next, node, k - 1, end, greedy);
      var body := RankNode(p, rest, slots, groups, lo + 1, node);
      rank' := body[lo := EntryOptional(node, k, greedy, rank[end])];
      Rerank(p, body, rank', slots, lo + 1, next);
      Rerank(p, rest, rank', slots, next, end);
      JoinRanks(p, rank', slots, lo + 1, next, end);
      RankedSplit(p, rank', slots, lo, end);
    }
  }

  /** Every program compiled from a guarded pattern has a rank, so its targets and slots are in bounds. */
  lemma {:induction false} CompiledIsRanked(p: Program, ast: Node, groups: nat) returns (rank: seq<nat>)
    requires WellFormed(ast, groups) && Guarded(ast) && groups > 0 && Compiled(p, ast)
    ensures Ranked(p, rank, 2 * groups)
  {
    var end := 1 + Len(ast);
    var base := seq(|p|, i => 0)[end := 1];
    var after := RankNode(p, base, 2 * groups, groups, 1, ast);
    rank := after[0 := after[1] + 1];
    Rerank(p, after, rank, 2 * groups, 1, end);
    forall pc: nat | pc < |p|
      ensures RankedAt(p, rank, 2 * groups, pc)
    {
      if 1 <= pc < end {
        assert LocallyRanked(p, rank, 2 * groups, 1, end, pc);
      }
    }
  }

  /** Searching with a guarded pattern always halts, whatever the text and the start. */
  lemma {:induction false} GuardedHalts(p: Program, s: Text, ast: Node, groups: nat, pos: nat, saves: Saves)
    returns (fuel: nat)
    requires WellFormed(ast, groups) && Guarded(ast) && groups > 0 && Compiled(p, ast)
    requires pos <= |s.chars| && |saves| == 2 * groups
    ensures Run(p, s, fuel, 0, pos, saves, {}) != Unfinished
  {
    var rank := CompiledIsRanked(p, ast, groups);
    fuel := RankedHalts(p, s, rank, 0, 0, pos, saves, {});
  }
}
