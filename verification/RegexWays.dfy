/** Ordered backtracking for every pattern: a split that is active where it is met is not entered
    again. Splits are named by the place of their code. */
module RegexWays {
  import opened Options
  import opened RegexSyntax
  import opened RegexProgram
  import opened RegexCompiler
  import opened RegexExec
  import opened RegexLanguage
  import opened RegexOrdered
  import opened RegexPriority

  /** A cursor and the splits whose first branches were entered on the way to it. */
  datatype Thread = Thread(at: Cursor, active: set<Key>) {
    predicate Entered(split: nat) {
      (split, at.pos) in active
    }

    function Enter(split: nat): Thread {
      Thread(at, active + {(split, at.pos)})
    }

    function Record(slot: nat): Thread {
      Thread(at.Record(slot), active)
    }
  }

  // ----- room for more splits -----

  ghost function Universe(s: Text, size: nat): set<Key> {
    set pc: nat, pos: nat | pc < size && pos <= |s.chars| :: (pc, pos)
  }

  /** How many splits of a program of this size can still be entered. */
  ghost function Free(s: Text, size: nat, t: Thread): nat {
    |Universe(s, size) - t.active|
  }

  /** Less text is left than `left`, or as much and fewer than `free` splits. */
  ghost predicate Under(s: Text, size: nat, t: Thread, left: nat, free: nat) {
    Remaining(s, t.at.pos) < left || (Remaining(s, t.at.pos) == left && Free(s, size, t) < free)
  }

  ghost function Unders(s: Text, size: nat, ts: seq<Thread>, left: nat, free: nat): (r: seq<Thread>)
    ensures forall t <- r :: t in ts && Under(s, size, t, left, free)
  {
    if ts == [] then []
    else if Under(s, size, ts[0], left, free) then [ts[0]] + Unders(s, size, ts[1..], left, free)
    else Unders(s, size, ts[1..], left, free)
  }

  lemma {:induction false} UndersAll(s: Text, size: nat, ts: seq<Thread>, left: nat, free: nat)
    requires forall t <- ts :: Under(s, size, t, left, free)
    ensures Unders(s, size, ts, left, free) == ts
    decreases |ts|
  {
    if ts != [] {
      UndersAll(s, size, ts[1..], left, free);
    }
  }

  lemma {:induction false} FreeShrinks(s: Text, size: nat, t: Thread, u: Thread)
    requires t.active <= u.active
    ensures Free(s, size, u) <= Free(s, size, t)
  {
    var small, big := Universe(s, size) - u.active, Universe(s, size) - t.active;
    assert big == small + (big - small);
  }

  lemma {:induction false} EnteringTakesRoom(s: Text, size: nat, t: Thread, split: nat)
    requires split < size && t.at.pos <= |s.chars| && !t.Entered(split)
    ensures Free(s, size, t.Enter(split)) < Free(s, size, t)
  {
    var key := (split, t.at.pos);
    assert key in Universe(s, size);
    assert Universe(s, size) - t.Enter(split).active == Universe(s, size) - t.active - {key};
  }

  // ----- all ways across a node, best first -----

  ghost function Ways(s: Text, size: nat, node: Node, lo: nat, t: Thread): seq<Thread>
    decreases node, 0
  {
    match node
    case Empty => [t]
    case Atom(test) =>
      if t.at.pos <= |s.chars| && Passes(test, s, t.at.pos) then [t.(at := Cursor(t.at.pos + Width(test), t.at.saves))] else []
    case Concat(nodes) => WaysSeq(s, size, nodes, lo, t)
    case Alt(branches) => WaysAlt(s, size, branches, lo, t)
    case Repeat(n, min, max, greedy) => WaysRepeat(s, size, n, lo, min, Extra(min, max), greedy, t)
    case Group(index, n) =>
      if index.None? then Ways(s, size, n, lo, t)
      else RecordWays(Ways(s, size, n, lo + 1, t.Record(2 * index.value)), 2 * index.value + 1)
  }

  ghost function RecordWays(ts: seq<Thread>, slot: nat): seq<Thread> {
    if ts == [] then [] else [ts[0].Record(slot)] + RecordWays(ts[1..], slot)
  }

  ghost function WaysSeq(s: Text, size: nat, nodes: seq<Node>, lo: nat, t: Thread): seq<Thread>
    decreases nodes, 0
  {
    if nodes == [] then [t] else ThenWays(s, size, Ways(s, size, nodes[0], lo, t), nodes[1..], lo + Len(nodes[0]))
  }

  ghost function ThenWays(s: Text, size: nat, ts: seq<Thread>, nodes: seq<Node>, lo: nat): seq<Thread>
    decreases nodes, 1, |ts|
  {
    if ts == [] then [] else WaysSeq(s, size, nodes, lo, ts[0]) + ThenWays(s, size, ts[1..], nodes, lo)
  }

  /** All branches but the last have a split in front. */
  ghost function WaysAlt(s: Text, size: nat, branches: seq<Node>, lo: nat, t: Thread): seq<Thread>
    decreases branches, 0
  {
    if branches == [] then []
    else if |branches| == 1 then Ways(s, size, branches[0], lo, t)
    else
      (if t.Entered(lo) then [] else Ways(s, size, branches[0], lo + 1, t.Enter(lo)))
      + WaysAlt(s, size, branches[1..], lo + 2 + Len(branches[0]), t)
  }

  /** `min` mandatory rounds, then up to `extra` optional ones, each behind a split. */
  ghost function WaysRepeat(s: Text, size: nat, node: Node, lo: nat, min: nat, extra: Option<nat>, greedy: bool,
                            t: Thread): seq<Thread>
    decreases node, 1, min, (if extra.Some? then extra.value else Remaining(s, t.at.pos)),
              (if extra.Some? then 0 else Free(s, size, t)), 3, 0
  {
    if min > 0 then ThenRepeat(s, size, Ways(s, size, node, lo, t), node, lo + Len(node), min - 1, extra, greedy, |s.chars| + 1, 0)
    else if extra == Some(0) then [t]
    else if greedy then
      (if t.Entered(lo) then [] else Round(s, size, node, lo, extra, greedy, t, t.Enter(lo))) + [t]
    else
      (if t.Entered(lo) then [] else [t.Enter(lo)]) + Round(s, size, node, lo, extra, greedy, t, t)
  }

  /** The ways that take one more optional round after `t`, which goes into it as `u`. Without a bound
      only rounds count that take a character or enter a split. */
  ghost function Round(s: Text, size: nat, node: Node, lo: nat, extra: Option<nat>, greedy: bool, t: Thread, u: Thread)
    : seq<Thread>
    requires extra != Some(0)
    decreases node, 1, 0, (if extra.Some? then extra.value else Remaining(s, t.at.pos)),
              (if extra.Some? then 0 else Free(s, size, t)), 2, 0
  {
    var ways := Ways(s, size, node, lo + 1, u);
    match extra
    case Some(k) => ThenRepeat(s, size, ways, node, lo + 1 + Len(node), 0, Some(k - 1), greedy, 0, 0)
    case None =>
      var left, free := Remaining(s, t.at.pos), Free(s, size, t);
      ThenRepeat(s, size, Unders(s, size, ways, left, free), node, lo, 0, None, greedy, left, free)
  }

  ghost function ThenRepeat(s: Text, size: nat, ts: seq<Thread>, node: Node, lo: nat, min: nat, extra: Option<nat>, greedy: bool,
                            left: nat, free: nat): seq<Thread>
    requires extra.None? ==> forall t <- ts :: Under(s, size, t, left, free)
    decreases node, 1, min, (if extra.Some? then extra.value else left), (if extra.Some? then 0 else free),
              (if extra.Some? then 4 else 1), |ts|
  {
    if ts == [] then []
    else
      assert extra.None? ==> ts[0] in ts && Under(s, size, ts[0], left, free);
      WaysRepeat(s, size, node, lo, min, extra, greedy, ts[0]) + ThenRepeat(s, size, ts[1..], node, lo, min, extra, greedy, left, free)
  }

  // ----- where a way comes from -----

  lemma {:induction false} RecordedWay(ts: seq<Thread>, slot: nat, u: Thread) returns (m: Thread)
    requires u in RecordWays(ts, slot)
    ensures m in ts && u == m.Record(slot)
    decreases |ts|
  {
    if u == ts[0].Record(slot) {
      m := ts[0];
    } else {
      m := RecordedWay(ts[1..], slot, u);
    }
  }

  lemma {:induction false} ThenWaysFrom(s: Text, size: nat, ts: seq<Thread>, nodes: seq<Node>, lo: nat, u: Thread) returns (m: Thread)
    requires u in ThenWays(s, size, ts, nodes, lo)
    ensures m in ts && u in WaysSeq(s, size, nodes, lo, m)
    decreases |ts|
  {
    if u in WaysSeq(s, size, nodes, lo, ts[0]) {
      m := ts[0];
    } else {
      m := ThenWaysFrom(s, size, ts[1..], nodes, lo, u);
    }
  }

  lemma {:induction false} ThenRepeatFrom(s: Text, size: nat, ts: seq<Thread>, node: Node, lo: nat, min: nat, extra: Option<nat>,
                                          greedy: bool, left: nat, free: nat, u: Thread)
    returns (m: Thread)
    requires extra.None? ==> forall t <- ts :: Under(s, size, t, left, free)
    requires u in ThenRepeat(s, size, ts, node, lo, min, extra, greedy, left, free)
    ensures m in ts && u in WaysRepeat(s, size, node, lo, min, extra, greedy, m)
    decreases |ts|
  {
    if u in WaysRepeat(s, size, node, lo, min, extra, greedy, ts[0]) {
      m := ts[0];
    } else {
      m := ThenRepeatFrom(s, size, ts[1..], node, lo, min, extra, greedy, left, free, u);
    }
  }

  /** Where the next round starts, and how many are left after it. */
  function NextStart(node: Node, lo: nat, extra: Option<nat>): nat {
    if extra.Some? then lo + 1 + Len(node) else lo
  }

  function NextExtra(extra: Option<nat>): Option<nat>
    requires extra != Some(0)
  {
    if extra.Some? then Some(extra.value - 1) else None
  }

  lemma {:induction false} RoundFrom(s: Text, size: nat, node: Node, lo: nat, extra: Option<nat>, greedy: bool, t: Thread, u: Thread,
                                     v: Thread)
    returns (m: Thread)
    requires extra != Some(0) && v in Round(s, size, node, lo, extra, greedy, t, u)
    ensures m in Ways(s, size, node, lo + 1, u)
    ensures extra.None? ==> Under(s, size, m, Remaining(s, t.at.pos), Free(s, size, t))
    ensures v in WaysRepeat(s, size, node, NextStart(node, lo, extra), 0, NextExtra(extra), greedy, m)
  {
    var ways := Ways(s, size, node, lo + 1, u);
    var left, free := Remaining(s, t.at.pos), Free(s, size, t);
    if extra.Some? {
      m := ThenRepeatFrom(s, size, ways, node, lo + 1 + Len(node), 0, NextExtra(extra), greedy, 0, 0, v);
    } else {
      m := ThenRepeatFrom(s, size, Unders(s, size, ways, left, free), node, lo, 0, None, greedy, left, free, v);
    }
  }

  /** A way through a repeat: out of it, or into another round. */
  lemma {:induction false} RepeatFrom(s: Text, size: nat, node: Node, lo: nat, extra: Option<nat>, greedy: bool, t: Thread, v: Thread)
    requires extra != Some(0) && v in WaysRepeat(s, size, node, lo, 0, extra, greedy, t)
    ensures || (greedy && v == t)
            || (!greedy && !t.Entered(lo) && v == t.Enter(lo))
            || (greedy && !t.Entered(lo) && v in Round(s, size, node, lo, extra, greedy, t, t.Enter(lo)))
            || (!greedy && v in Round(s, size, node, lo, extra, greedy, t, t))
  {
  }

  // ----- every way is a derivation -----

  lemma {:induction false} WayDerives(s: Text, size: nat, groups: nat, node: Node, lo: nat, t: Thread, u: Thread)
    requires u in Ways(s, size, node, lo, t) && WellFormed(node, groups)
    ensures Derives(s, node, t.at, u.at)
    decreases node, 0
  {
    match node
    case Empty =>
    case Atom(_) =>
    case Concat(nodes) => SeqWayDerives(s, size, groups, nodes, lo, t, u);
    case Alt(branches) => AltWayDerives(s, size, groups, branches, lo, t, u);
    case Repeat(n, min, max, greedy) =>
      var k := RepeatWayDerives(s, size, groups, n, lo, min, Extra(min, max), greedy, t, u);
      assert DerivesTimes(s, n, k, t.at, u.at);
    case Group(None, n) => WayDerives(s, size, groups, n, lo, t, u);
    case Group(Some(g), n) =>
      var m := RecordedWay(Ways(s, size, n, lo + 1, t.Record(2 * g)), 2 * g + 1, u);
      WayDerives(s, size, groups, n, lo + 1, t.Record(2 * g), m);
  }

  lemma {:induction false} SeqWayDerives(s: Text, size: nat, groups: nat, nodes: seq<Node>, lo: nat, t: Thread, u: Thread)
    requires u in WaysSeq(s, size, nodes, lo, t) && AllWellFormed(nodes, groups)
    ensures DerivesSeq(s, nodes, t.at, u.at)
    decreases nodes, 0
  {
    if nodes != [] {
      var m := ThenWaysFrom(s, size, Ways(s, size, nodes[0], lo, t), nodes[1..], lo + Len(nodes[0]), u);
      WayDerives(s, size, groups, nodes[0], lo, t, m);
      SeqWayDerives(s, size, groups, nodes[1..], lo + Len(nodes[0]), m, u);
    }
  }

  lemma {:induction false} AltWayDerives(s: Text, size: nat, groups: nat, branches: seq<Node>, lo: nat, t: Thread, u: Thread)
    requires u in WaysAlt(s, size, branches, lo, t) && AllWellFormed(branches, groups)
    ensures DerivesAlt(s, branches, t.at, u.at)
    decreases branches, 0
  {
    if |branches| == 1 {
      WayDerives(s, size, groups, branches[0], lo, t, u);
    } else if !t.Entered(lo) && u in Ways(s, size, branches[0], lo + 1, t.Enter(lo)) {
      WayDerives(s, size, groups, branches[0], lo + 1, t.Enter(lo), u);
    } else {
      AltWayDerives(s, size, groups, branches[1..], lo + 2 + Len(branches[0]), t, u);
    }
  }

  lemma {:induction false} RepeatWayDerives(s: Text, size: nat, groups: nat, node: Node, lo: nat, min: nat, extra: Option<nat>,
                                            greedy: bool, t: Thread, u: Thread)
    returns (k: nat)
    requires u in WaysRepeat(s, size, node, lo, min, extra, greedy, t) && WellFormed(node, groups)
    ensures min <= k && (extra.Some? ==> k <= min + extra.value) && DerivesTimes(s, node, k, t.at, u.at)
    decreases node, 1, min, (if extra.Some? then extra.value else Remaining(s, t.at.pos)),
              (if extra.Some? then 0 else Free(s, size, t)), 1
  {
    if min > 0 {
      var m := ThenRepeatFrom(s, size, Ways(s, size, node, lo, t), node, lo + Len(node), min - 1, extra, greedy, |s.chars| + 1, 0, u);
      WayDerives(s, size, groups, node, lo, t, m);
      k := RepeatWayDerives(s, size, groups, node, lo + Len(node), min - 1, extra, greedy, m, u);
      k := k + 1;
    } else if extra == Some(0) || u == t || u == t.Enter(lo) {
      k := 0;
    } else {
      RepeatFrom(s, size, node, lo, extra, greedy, t, u);
      k := RoundDerives(s, size, groups, node, lo, extra, greedy, t, if greedy then t.Enter(lo) else t, u);
    }
  }

  lemma {:induction false} RoundDerives(s: Text, size: nat, groups: nat, node: Node, lo: nat, extra: Option<nat>, greedy: bool,
                                        t: Thread, start: Thread, u: Thread)
    returns (k: nat)
    requires extra != Some(0) && u in Round(s, size, node, lo, extra, greedy, t, start) && WellFormed(node, groups)
    requires start.at == t.at
    ensures (extra.Some? ==> k <= extra.value) && DerivesTimes(s, node, k, t.at, u.at)
    decreases node, 1, 0, (if extra.Some? then extra.value else Remaining(s, t.at.pos)),
              (if extra.Some? then 0 else Free(s, size, t)), 0
  {
    var m := RoundFrom(s, size, node, lo, extra, greedy, t, start, u);
    WayDerives(s, size, groups, node, lo + 1, start, m);
    k := RepeatWayDerives(s, size, groups, node, NextStart(node, lo, extra), 0, NextExtra(extra), greedy, m, u);
    k := k + 1;
  }

  // ----- every way moves on -----

  /** `u` can come after `t`. */
  ghost predicate Follows(s: Text, groups: nat, t: Thread, u: Thread) {
    InText(s, groups, u.at) && t.at.pos <= u.at.pos && t.active <= u.active
  }

  /** A character was taken or a split entered. */
  ghost predicate Ahead(s: Text, size: nat, t: Thread, u: Thread) {
    Under(s, size, u, Remaining(s, t.at.pos), Free(s, size, t))
  }

  lemma {:induction false} Onwards(s: Text, size: nat, groups: nat, t: Thread, m: Thread, u: Thread)
    requires Follows(s, groups, t, m) && Follows(s, groups, m, u)
    ensures Follows(s, groups, t, u) && (Ahead(s, size, t, m) || Ahead(s, size, m, u) ==> Ahead(s, size, t, u))
  {
    FreeShrinks(s, size, t, m);
    FreeShrinks(s, size, m, u);
  }

  lemma {:induction false} EnteringMoves(s: Text, size: nat, groups: nat, t: Thread, split: nat)
    requires split < size && InText(s, groups, t.at) && !t.Entered(split)
    ensures Follows(s, groups, t, t.Enter(split)) && Ahead(s, size, t, t.Enter(split))
  {
    EnteringTakesRoom(s, size, t, split);
  }

  /** Every way moves forward and only adds splits; across a node that cannot be fallen through it
      takes a character or enters a split. */
  lemma {:induction false} WayMoves(s: Text, size: nat, groups: nat, node: Node, lo: nat, t: Thread, u: Thread)
    requires WellFormed(node, groups) && InText(s, groups, t.at) && lo + Len(node) <= size && u in Ways(s, size, node, lo, t)
    ensures Follows(s, groups, t, u) && (!FallsThrough(node) ==> Ahead(s, size, t, u))
    decreases node, 0
  {
    match node
    case Empty =>
    case Atom(_) =>
    case Concat(nodes) => SeqMoves(s, size, groups, nodes, lo, t, u);
    case Alt(branches) => AltMoves(s, size, groups, branches, lo, t, u);
    case Repeat(n, min, max, greedy) => RepeatMoves(s, size, groups, n, lo, min, Extra(min, max), greedy, t, u);
    case Group(None, n) => WayMoves(s, size, groups, n, lo, t, u);
    case Group(Some(g), n) =>
      var m := RecordedWay(Ways(s, size, n, lo + 1, t.Record(2 * g)), 2 * g + 1, u);
      WayMoves(s, size, groups, n, lo + 1, t.Record(2 * g), m);
  }

  lemma {:induction false} SeqMoves(s: Text, size: nat, groups: nat, nodes: seq<Node>, lo: nat, t: Thread, u: Thread)
    requires AllWellFormed(nodes, groups) && InText(s, groups, t.at) && lo + LenSeq(nodes) <= size
    requires u in WaysSeq(s, size, nodes, lo, t)
    ensures Follows(s, groups, t, u) && (!AllFallThrough(nodes) ==> Ahead(s, size, t, u))
    decreases nodes, 0
  {
    if nodes != [] {
      var next := lo + Len(nodes[0]);
      var m := ThenWaysFrom(s, size, Ways(s, size, nodes[0], lo, t), nodes[1..], next, u);
      WayMoves(s, size, groups, nodes[0], lo, t, m);
      SeqMoves(s, size, groups, nodes[1..], next, m, u);
      Onwards(s, size, groups, t, m, u);
    }
  }

  lemma {:induction false} AltMoves(s: Text, size: nat, groups: nat, branches: seq<Node>, lo: nat, t: Thread, u: Thread)
    requires AllWellFormed(branches, groups) && InText(s, groups, t.at) && lo + LenAlt(branches) <= size
    requires u in WaysAlt(s, size, branches, lo, t)
    ensures Follows(s, groups, t, u) && (!LastFallsThrough(branches) ==> Ahead(s, size, t, u))
    decreases branches, 0
  {
    if |branches| == 1 {
      WayMoves(s, size, groups, branches[0], lo, t, u);
    } else if !t.Entered(lo) && u in Ways(s, size, branches[0], lo + 1, t.Enter(lo)) {
      EnteringMoves(s, size, groups, t, lo);
      WayMoves(s, size, groups, branches[0], lo + 1, t.Enter(lo), u);
      Onwards(s, size, groups, t, t.Enter(lo), u);
    } else {
      AltMoves(s, size, groups, branches[1..], lo + 2 + Len(branches[0]), t, u);
    }
  }

  predicate RepeatFallsThrough(node: Node, min: nat, extra: Option<nat>, greedy: bool) {
    && (min > 0 ==> FallsThrough(node))
    && (!greedy ==> extra.Some? && (extra.value > 0 ==> FallsThrough(node)))
  }

  lemma {:induction false} RepeatMoves(s: Text, size: nat, groups: nat, node: Node, lo: nat, min: nat, extra: Option<nat>,
                                       greedy: bool, t: Thread, u: Thread)
    requires WellFormed(node, groups) && InText(s, groups, t.at) && lo + LenCopies(node, min) + LenTail(node, extra) <= size
    requires u in WaysRepeat(s, size, node, lo, min, extra, greedy, t)
    ensures Follows(s, groups, t, u) && (!RepeatFallsThrough(node, min, extra, greedy) ==> Ahead(s, size, t, u))
    decreases node, 2, min, (if extra.Some? then extra.value else Remaining(s, t.at.pos)),
              (if extra.Some? then 0 else Free(s, size, t)), 1
  {
    if min > 0 {
      var next := lo + Len(node);
      var m := ThenRepeatFrom(s, size, Ways(s, size, node, lo, t), node, next, min - 1, extra, greedy, |s.chars| + 1, 0, u);
      WayMoves(s, size, groups, node, lo, t, m);
      RepeatMoves(s, size, groups, node, next, min - 1, extra, greedy, m, u);
      Onwards(s, size, groups, t, m, u);
    } else if extra != Some(0) {
      RepeatFrom(s, size, node, lo, extra, greedy, t, u);
      if !t.Entered(lo) {
        EnteringMoves(s, size, groups, t, lo);
      }
      var skips := if greedy then u == t else !t.Entered(lo) && u == t.Enter(lo);
      if !skips {
        RoundMoves(s, size, groups, node, lo, extra, greedy, t, if greedy then t.Enter(lo) else t, u);
      }
    }
  }

  lemma {:induction false} RoundMoves(s: Text, size: nat, groups: nat, node: Node, lo: nat, extra: Option<nat>, greedy: bool,
                                      t: Thread, start: Thread, u: Thread)
    requires WellFormed(node, groups) && InText(s, groups, t.at) && extra != Some(0) && lo + LenTail(node, extra) <= size
    requires start == t || (!t.Entered(lo) && start == t.Enter(lo))
    requires u in Round(s, size, node, lo, extra, greedy, t, start)
    ensures Follows(s, groups, t, u) && (extra.None? || !FallsThrough(node) || start != t ==> Ahead(s, size, t, u))
    decreases node, 2, 0, (if extra.Some? then extra.value else Remaining(s, t.at.pos)),
              (if extra.Some? then 0 else Free(s, size, t)), 0
  {
    var m := RoundFrom(s, size, node, lo, extra, greedy, t, start, u);
    BodyMoves(s, size, groups, node, lo, t, start, m);
    RepeatMoves(s, size, groups, node, NextStart(node, lo, extra), 0, NextExtra(extra), greedy, m, u);
    Onwards(s, size, groups, t, m, u);
  }

  lemma {:induction false} BodyMoves(s: Text, size: nat, groups: nat, node: Node, lo: nat, t: Thread, start: Thread, m: Thread)
    requires WellFormed(node, groups) && InText(s, groups, t.at) && lo + 1 + Len(node) <= size
    requires start == t || (!t.Entered(lo) && start == t.Enter(lo))
    requires m in Ways(s, size, node, lo + 1, start)
    ensures Follows(s, groups, t, m) && (!FallsThrough(node) || start != t ==> Ahead(s, size, t, m))
    decreases node, 1
  {
    if start != t {
      EnteringMoves(s, size, groups, t, lo);
    }
    WayMoves(s, size, groups, node, lo + 1, start, m);
    Onwards(s, size, groups, t, start, m);
  }
}
