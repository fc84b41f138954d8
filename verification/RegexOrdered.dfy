/** Ordered backtracking over the syntax tree: every match of a node, best first. */
module RegexOrdered {
  import opened Options
  import opened RegexSyntax
  import opened RegexProgram
  import opened RegexCompiler
  import opened RegexExec
  import opened RegexLanguage

  // ----- all results of a node, best first -----

  function Remaining(s: Text, pos: nat): nat {
    if pos <= |s.chars| then |s.chars| - pos else 0
  }

  /** Left alternative first; one more repetition first when greedy, last when lazy. */
  function Results(s: Text, node: Node, x: Cursor): seq<Cursor>
    decreases node, 0
  {
    match node
    case Empty => [x]
    case Atom(t) => if x.pos <= |s.chars| && Passes(t, s, x.pos) then [Cursor(x.pos + Width(t), x.saves)] else []
    case Concat(nodes) => ResultsSeq(s, nodes, x)
    case Alt(branches) => ResultsAlt(s, branches, x)
    case Repeat(n, min, max, greedy) => Iterate(s, n, min, Extra(min, max), greedy, x)
    case Group(index, n) =>
      if index.None? then Results(s, n, x)
      else RecordEach(Results(s, n, x.Record(2 * index.value)), 2 * index.value + 1)
  }

  function RecordEach(ys: seq<Cursor>, slot: nat): seq<Cursor> {
    if ys == [] then [] else [ys[0].Record(slot)] + RecordEach(ys[1..], slot)
  }

  function ResultsSeq(s: Text, nodes: seq<Node>, x: Cursor): seq<Cursor>
    decreases nodes, 0
  {
    if nodes == [] then [x] else ThenSeq(s, Results(s, nodes[0], x), nodes[1..])
  }

  function ThenSeq(s: Text, ys: seq<Cursor>, nodes: seq<Node>): seq<Cursor>
    decreases nodes, 1, |ys|
  {
    if ys == [] then [] else ResultsSeq(s, nodes, ys[0]) + ThenSeq(s, ys[1..], nodes)
  }

  function ResultsAlt(s: Text, branches: seq<Node>, x: Cursor): seq<Cursor>
    decreases branches, 0
  {
    if branches == [] then [] else Results(s, branches[0], x) + ResultsAlt(s, branches[1..], x)
  }

  /** `min` mandatory rounds, then up to `extra` optional ones; without a bound every optional
      round must move forward. */
  function Iterate(s: Text, node: Node, min: nat, extra: Option<nat>, greedy: bool, x: Cursor): seq<Cursor>
    decreases node, 1, min, (if extra.Some? then extra.value else Remaining(s, x.pos)), 1, 0
  {
    if min > 0 then ThenIterate(s, Results(s, node, x), node, min - 1, extra, greedy, |s.chars|)
    else if extra == Some(0) then [x]
    else if greedy then More(s, node, extra, greedy, x) + [x]
    else [x] + More(s, node, extra, greedy, x)
  }

  /** The results that take at least one more optional round. */
  function More(s: Text, node: Node, extra: Option<nat>, greedy: bool, x: Cursor): seq<Cursor>
    requires extra != Some(0)
    decreases node, 1, 0, (if extra.Some? then extra.value else Remaining(s, x.pos)), 0, 0
  {
    if extra.Some? then ThenIterate(s, Results(s, node, x), node, 0, Some(extra.value - 1), greedy, 0)
    else
      var ys := Advancing(s, Results(s, node, x), x.pos);
      if ys == [] then [] else assert ys[0] in ys; ThenIterate(s, ys, node, 0, None, greedy, Remaining(s, x.pos) - 1)
  }

  function ThenIterate(s: Text, ys: seq<Cursor>, node: Node, min: nat, extra: Option<nat>, greedy: bool, bound: nat): seq<Cursor>
    requires extra.None? ==> forall y <- ys :: Remaining(s, y.pos) <= bound
    decreases node, 1, min, (if extra.Some? then extra.value else bound), 2, |ys|
  {
    if ys == [] then []
    else Iterate(s, node, min, extra, greedy, ys[0]) + ThenIterate(s, ys[1..], node, min, extra, greedy, bound)
  }

  function Advancing(s: Text, ys: seq<Cursor>, from: nat): (r: seq<Cursor>)
    ensures forall y <- r :: y in ys && from < y.pos <= |s.chars|
  {
    if ys == [] then []
    else if from < ys[0].pos <= |s.chars| then [ys[0]] + Advancing(s, ys[1..], from)
    else Advancing(s, ys[1..], from)
  }

  // ----- the results are exactly the derivations -----

  lemma {:induction false} ResultDerives(s: Text, node: Node, groups: nat, x: Cursor, y: Cursor)
    requires y in Results(s, node, x) && WellFormed(node, groups)
    ensures Derives(s, node, x, y)
    decreases node, 0
  {
    match node
    case Empty =>
    case Atom(_) =>
    case Concat(nodes) => SeqResultDerives(s, nodes, groups, x, y);
    case Alt(branches) => AltResultDerives(s, branches, groups, x, y);
    case Repeat(n, min, max, greedy) =>
      var k := IterateDerives(s, n, groups, min, Extra(min, max), greedy, x, y);
      assert DerivesTimes(s, n, k, x, y);
    case Group(index, n) =>
      if index.None? {
        ResultDerives(s, n, groups, x, y);
      } else {
        var m := RecordedFrom(Results(s, n, x.Record(2 * index.value)), 2 * index.value + 1, y);
        ResultDerives(s, n, groups, x.Record(2 * index.value), m);
      }
  }

  lemma {:induction false} RecordedFrom(ys: seq<Cursor>, slot: nat, z: Cursor) returns (y: Cursor)
    requires z in RecordEach(ys, slot)
    ensures y in ys && z == y.Record(slot)
    decreases |ys|
  {
    if z == ys[0].Record(slot) {
      y := ys[0];
    } else {
      y := RecordedFrom(ys[1..], slot, z);
    }
  }

  lemma {:induction false} SeqResultDerives(s: Text, nodes: seq<Node>, groups: nat, x: Cursor, y: Cursor)
    requires y in ResultsSeq(s, nodes, x) && AllWellFormed(nodes, groups)
    ensures DerivesSeq(s, nodes, x, y)
    decreases nodes, 0
  {
    if nodes != [] {
      var m := ThenSeqFrom(s, Results(s, nodes[0], x), nodes[1..], y);
      ResultDerives(s, nodes[0], groups, x, m);
      SeqResultDerives(s, nodes[1..], groups, m, y);
    }
  }

  lemma {:induction false} ThenSeqFrom(s: Text, ys: seq<Cursor>, nodes: seq<Node>, z: Cursor) returns (y: Cursor)
    requires z in ThenSeq(s, ys, nodes)
    ensures y in ys && z in ResultsSeq(s, nodes, y)
    decreases |ys|
  {
    if z in ResultsSeq(s, nodes, ys[0]) {
      y := ys[0];
    } else {
      y := ThenSeqFrom(s, ys[1..], nodes, z);
    }
  }

  lemma {:induction false} AltResultDerives(s: Text, branches: seq<Node>, groups: nat, x: Cursor, y: Cursor)
    requires y in ResultsAlt(s, branches, x) && AllWellFormed(branches, groups)
    ensures DerivesAlt(s, branches, x, y)
    decreases branches, 0
  {
    if y in Results(s, branches[0], x) {
      ResultDerives(s, branches[0], groups, x, y);
    } else {
      AltResultDerives(s, branches[1..], groups, x, y);
    }
  }

  lemma {:induction false} IterateDerives(s: Text, node: Node, groups: nat, min: nat, extra: Option<nat>,
                                          greedy: bool, x: Cursor, y: Cursor)
    returns (k: nat)
    requires y in Iterate(s, node, min, extra, greedy, x) && WellFormed(node, groups)
    ensures min <= k && (extra.Some? ==> k <= min + extra.value) && DerivesTimes(s, node, k, x, y)
    decreases node, 1, min, (if extra.Some? then extra.value else Remaining(s, x.pos)), 0
  {
    if min > 0 {
      var m := ThenIterateFrom(s, Results(s, node, x), node, min - 1, extra, greedy, |s.chars|, y);
      ResultDerives(s, node, groups, x, m);
      k := IterateDerives(s, node, groups, min - 1, extra, greedy, m, y);
      k := k + 1;
    } else if extra == Some(0) || y == x {
      k := 0;
    } else {
      var rest := if extra.Some? then Some(extra.value - 1) else None;
      var m := MoreFrom(s, node, extra, greedy, x, y);
      ResultDerives(s, node, groups, x, m);
      k := IterateDerives(s, node, groups, 0, rest, greedy, m, y);
      k := k + 1;
    }
  }

  /** A result of another round that is not the cursor itself comes from a result of the body. */
  lemma {:induction false} MoreFrom(s: Text, node: Node, extra: Option<nat>, greedy: bool, x: Cursor, y: Cursor)
    returns (m: Cursor)
    requires extra != Some(0) && y != x && y in Iterate(s, node, 0, extra, greedy, x)
    ensures m in Results(s, node, x) && (extra.None? ==> Remaining(s, m.pos) < Remaining(s, x.pos))
    ensures y in Iterate(s, node, 0, if extra.Some? then Some(extra.value - 1) else None, greedy, m)
  {
    var rest := if extra.Some? then Some(extra.value - 1) else None;
    var ys := if extra.Some? then Results(s, node, x) else Advancing(s, Results(s, node, x), x.pos);
    if extra.None? && ys != [] {
      assert ys[0] in ys;
    }
    var bound := if extra.Some? || ys == [] then 0 else Remaining(s, x.pos) - 1;
    m := ThenIterateFrom(s, ys, node, 0, rest, greedy, bound, y);
  }

  lemma {:induction false} ThenIterateFrom(s: Text, ys: seq<Cursor>, node: Node, min: nat, extra: Option<nat>,
                                           greedy: bool, bound: nat, z: Cursor)
    returns (y: Cursor)
    requires extra.None? ==> forall y <- ys :: Remaining(s, y.pos) <= bound
    requires z in ThenIterate(s, ys, node, min, extra, greedy, bound)
    ensures y in ys && z in Iterate(s, node, min, extra, greedy, y)
    decreases |ys|
  {
    if z in Iterate(s, node, min, extra, greedy, ys[0]) {
      y := ys[0];
    } else {
      y := ThenIterateFrom(s, ys[1..], node, min, extra, greedy, bound, z);
    }
  }

  lemma {:induction false} MustConsumeAdvances(s: Text, node: Node, groups: nat, x: Cursor, y: Cursor)
    requires Derives(s, node, x, y) && MustConsume(node) && WellFormed(node, groups) && |x.saves| == 2 * groups
    ensures x.pos < y.pos <= |s.chars| && |y.saves| == 2 * groups
    decreases node, 0
  {
    match node
    case Empty =>
    case Atom(_) =>
    case Concat(nodes) => SeqAdvances(s, nodes, groups, x, y);
    case Alt(branches) => AltAdvances(s, branches, groups, x, y);
    case Repeat(n, min, max, _) =>
      var k: nat :| min <= k && DerivesTimes(s, n, k, x, y);
      TimesAdvances(s, n, groups, k, x, y);
    case Group(index, n) =>
      if index.None? {
        MustConsumeAdvances(s, n, groups, x, y);
      } else {
        var open := 2 * index.value;
        var m: Cursor :| Derives(s, n, x.Record(open), m) && y == m.Record(open + 1);
        MustConsumeAdvances(s, n, groups, x.Record(open), m);
      }
  }

  lemma {:induction false} SeqAdvances(s: Text, nodes: seq<Node>, groups: nat, x: Cursor, y: Cursor)
    requires DerivesSeq(s, nodes, x, y) && SomeMustConsume(nodes) && AllWellFormed(nodes, groups)
    requires |x.saves| == 2 * groups
    ensures x.pos < y.pos <= |s.chars| && |y.saves| == 2 * groups
    decreases nodes, 0
  {
    var m: Cursor :| Derives(s, nodes[0], x, m) && DerivesSeq(s, nodes[1..], m, y);
    DerivationIsSound(s, nodes[0], groups, x, m);
    SeqIsSound(s, nodes[1..], groups, m, y);
    if MustConsume(nodes[0]) {
      MustConsumeAdvances(s, nodes[0], groups, x, m);
    } else {
      SeqAdvances(s, nodes[1..], groups, m, y);
    }
  }

  lemma {:induction false} AltAdvances(s: Text, branches: seq<Node>, groups: nat, x: Cursor, y: Cursor)
    requires DerivesAlt(s, branches, x, y) && AllMustConsume(branches) && AllWellFormed(branches, groups)
    requires |x.saves| == 2 * groups
    ensures x.pos < y.pos <= |s.chars| && |y.saves| == 2 * groups
    decreases branches, 0
  {
    if Derives(s, branches[0], x, y) {
      MustConsumeAdvances(s, branches[0], groups, x, y);
    } else {
      AltAdvances(s, branches[1..], groups, x, y);
    }
  }

  lemma {:induction false} TimesAdvances(s: Text, node: Node, groups: nat, k: nat, x: Cursor, y: Cursor)
    requires DerivesTimes(s, node, k, x, y) && k > 0 && MustConsume(node) && WellFormed(node, groups)
    requires |x.saves| == 2 * groups
    ensures x.pos < y.pos <= |s.chars| && |y.saves| == 2 * groups
    decreases node, k + 1
  {
    var m: Cursor :| Derives(s, node, x, m) && DerivesTimes(s, node, k - 1, m, y);
    MustConsumeAdvances(s, node, groups, x, m);
    TimesIsSound(s, node, groups, k - 1, m, y);
  }

  /** When unbounded repeats consume, every derivation is among the results. */
  lemma {:induction false} DerivationListed(s: Text, node: Node, groups: nat, x: Cursor, y: Cursor)
    requires Derives(s, node, x, y) && WellFormed(node, groups) && LoopsConsume(node) && |x.saves| == 2 * groups
    ensures y in Results(s, node, x)
    decreases node, 0
  {
    match node
    case Empty =>
    case Atom(_) =>
    case Concat(nodes) => SeqDerivationListed(s, nodes, groups, x, y);
    case Alt(branches) => AltDerivationListed(s, branches, groups, x, y);
    case Repeat(n, min, max, greedy) =>
      var k: nat :| min <= k && (max.Some? ==> k <= max.value) && DerivesTimes(s, n, k, x, y);
      TimesListed(s, n, groups, min, Extra(min, max), greedy, k, x, y);
    case Group(index, n) =>
      if index.None? {
        DerivationListed(s, n, groups, x, y);
      } else {
        var open := 2 * index.value;
        var m: Cursor :| Derives(s, n, x.Record(open), m) && y == m.Record(open + 1);
        DerivationListed(s, n, groups, x.Record(open), m);
        RecordedListed(Results(s, n, x.Record(open)), open + 1, m);
      }
  }

  lemma {:induction false} RecordedListed(ys: seq<Cursor>, slot: nat, y: Cursor)
    requires y in ys
    ensures y.Record(slot) in RecordEach(ys, slot)
    decreases |ys|
  {
    if y != ys[0] {
      RecordedListed(ys[1..], slot, y);
    }
  }

  lemma {:induction false} SeqDerivationListed(s: Text, nodes: seq<Node>, groups: nat, x: Cursor, y: Cursor)
    requires DerivesSeq(s, nodes, x, y) && AllWellFormed(nodes, groups) && AllLoopsConsume(nodes)
    requires |x.saves| == 2 * groups
    ensures y in ResultsSeq(s, nodes, x)
    decreases nodes, 0
  {
    if nodes != [] {
      var m: Cursor :| Derives(s, nodes[0], x, m) && DerivesSeq(s, nodes[1..], m, y);
      DerivationListed(s, nodes[0], groups, x, m);
      DerivationIsSound(s, nodes[0], groups, x, m);
      SeqDerivationListed(s, nodes[1..], groups, m, y);
      ThenSeqListed(s, Results(s, nodes[0], x), nodes[1..], m, y);
    }
  }

  lemma {:induction false} ThenSeqListed(s: Text, ys: seq<Cursor>, nodes: seq<Node>, y: Cursor, z: Cursor)
    requires y in ys && z in ResultsSeq(s, nodes, y)
    ensures z in ThenSeq(s, ys, nodes)
    decreases |ys|
  {
    if y != ys[0] {
      ThenSeqListed(s, ys[1..], nodes, y, z);
    }
  }

  lemma {:induction false} AltDerivationListed(s: Text, branches: seq<Node>, groups: nat, x: Cursor, y: Cursor)
    requires DerivesAlt(s, branches, x, y) && AllWellFormed(branches, groups) && AllLoopsConsume(branches)
    requires |x.saves| == 2 * groups
    ensures y in ResultsAlt(s, branches, x)
    decreases branches, 0
  {
    if Derives(s, branches[0], x, y) {
      DerivationListed(s, branches[0], groups, x, y);
    } else {
      AltDerivationListed(s, branches[1..], groups, x, y);
    }
  }

  lemma {:induction false} TimesListed(s: Text, node: Node, groups: nat, min: nat, extra: Option<nat>, greedy: bool,
                                       k: nat, x: Cursor, y: Cursor)
    requires WellFormed(node, groups) && LoopsConsume(node) && (extra.None? ==> MustConsume(node)) && |x.saves| == 2 * groups
    requires DerivesTimes(s, node, k, x, y) && min <= k && (extra.Some? ==> k <= min + extra.value)
    ensures y in Iterate(s, node, min, extra, greedy, x)
    decreases node, k + 1
  {
    if k > 0 {
      var m: Cursor :| Derives(s, node, x, m) && DerivesTimes(s, node, k - 1, m, y);
      DerivationListed(s, node, groups, x, m);
      DerivationIsSound(s, node, groups, x, m);
      if min > 0 {
        TimesListed(s, node, groups, min - 1, extra, greedy, k - 1, m, y);
        ThenIterateListed(s, Results(s, node, x), node, min - 1, extra, greedy, |s.chars|, m, y);
      } else {
        var rest := if extra.Some? then Some(extra.value - 1) else None;
        if extra.None? {
          MustConsumeAdvances(s, node, groups, x, m);
        }
        TimesListed(s, node, groups, 0, rest, greedy, k - 1, m, y);
        MoreListed(s, node, extra, greedy, x, m, y);
      }
    }
  }

  lemma {:induction false} MoreListed(s: Text, node: Node, extra: Option<nat>, greedy: bool, x: Cursor, m: Cursor, y: Cursor)
    requires extra != Some(0) && m in Results(s, node, x) && (extra.None? ==> x.pos < m.pos <= |s.chars|)
    requires y in Iterate(s, node, 0, if extra.Some? then Some(extra.value - 1) else None, greedy, m)
    ensures y in More(s, node, extra, greedy, x)
  {
    if extra.Some? {
      ThenIterateListed(s, Results(s, node, x), node, 0, Some(extra.value - 1), greedy, 0, m, y);
    } else {
      AdvancingKeeps(s, Results(s, node, x), x.pos, m);
      ThenIterateListed(s, Advancing(s, Results(s, node, x), x.pos), node, 0, None, greedy, Remaining(s, x.pos) - 1, m, y);
    }
  }

  lemma {:induction false} AdvancingKeeps(s: Text, ys: seq<Cursor>, from: nat, y: Cursor)
    requires y in ys && from < y.pos <= |s.chars|
    ensures y in Advancing(s, ys, from)
    decreases |ys|
  {
    if y != ys[0] {
      AdvancingKeeps(s, ys[1..], from, y);
    }
  }

  lemma {:induction false} ThenIterateListed(s: Text, ys: seq<Cursor>, node: Node, min: nat, extra: Option<nat>,
                                             greedy: bool, bound: nat,
                                             y: Cursor, z: Cursor)
    requires extra.None? ==> forall y <- ys :: Remaining(s, y.pos) <= bound
    requires y in ys && z in Iterate(s, node, min, extra, greedy, y)
    ensures z in ThenIterate(s, ys, node, min, extra, greedy, bound)
    decreases |ys|
  {
    if y != ys[0] {
      ThenIterateListed(s, ys[1..], node, min, extra, greedy, bound, y, z);
    }
  }
}
