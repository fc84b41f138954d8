/** The language of a pattern: which stretches of text it matches and what its groups capture. */
module RegexLanguage {
  import opened Options
  import opened RegexSyntax
  import opened RegexProgram
  import opened RegexCompiler
  import opened RegexExec

  /** A position in the text with the capture boundaries recorded so far. */
  datatype Cursor = Cursor(pos: nat, saves: Saves) {
    function Record(slot: nat): Cursor {
      if slot < |saves| then Cursor(pos, saves[slot := Some(pos)]) else this
    }
  }

  /** `node` can match the text between `x` and `y`, turning the captures of `x` into those of `y`. */
  ghost predicate Derives(s: Text, node: Node, x: Cursor, y: Cursor)
    decreases node, 0
  {
    match node
    case Empty => x == y
    case Atom(t) => x.pos <= |s.chars| && Passes(t, s, x.pos) && y == Cursor(x.pos + Width(t), x.saves)
    case Concat(nodes) => DerivesSeq(s, nodes, x, y)
    case Alt(branches) => DerivesAlt(s, branches, x, y)
    case Repeat(n, min, max, _) =>
      exists k: nat :: min <= k && (max.Some? ==> k <= max.value) && DerivesTimes(s, n, k, x, y)
    case Group(index, n) =>
      if index.None? then Derives(s, n, x, y)
      else exists m: Cursor :: Derives(s, n, x.Record(2 * index.value), m) && y == m.Record(2 * index.value + 1)
  }

  ghost predicate DerivesSeq(s: Text, nodes: seq<Node>, x: Cursor, y: Cursor)
    decreases nodes, 0
  {
    if nodes == [] then x == y
    else exists m: Cursor :: Derives(s, nodes[0], x, m) && DerivesSeq(s, nodes[1..], m, y)
  }

  ghost predicate DerivesAlt(s: Text, branches: seq<Node>, x: Cursor, y: Cursor)
    decreases branches, 0
  {
    branches != [] && (Derives(s, branches[0], x, y) || DerivesAlt(s, branches[1..], x, y))
  }

  ghost predicate DerivesTimes(s: Text, node: Node, k: nat, x: Cursor, y: Cursor)
    decreases node, k + 1
  {
    if k == 0 then x == y
    else exists m: Cursor :: Derives(s, node, x, m) && DerivesTimes(s, node, k - 1, m, y)
  }

  /** The capture slots of group `g` after matching from `x` to `y`: left as they were, or both
      set to an ordered stretch between the two. Group 0, the whole match, is never touched. */
  ghost predicate GroupKept(g: nat, x: Cursor, y: Cursor) {
    && |x.saves| == |y.saves|
    && (2 * g + 1 < |x.saves| ==>
          var (a, b) := (y.saves[2 * g], y.saves[2 * g + 1]);
          || (a == x.saves[2 * g] && b == x.saves[2 * g + 1])
          || (g > 0 && a.Some? && b.Some? && x.pos <= a.value <= b.value <= y.pos))
  }

  ghost predicate Sound(s: Text, x: Cursor, y: Cursor) {
    && x.pos <= y.pos
    && (x.pos <= |s.chars| ==> y.pos <= |s.chars|)
    && |x.saves| == |y.saves|
    && (forall g: nat :: GroupKept(g, x, y))
  }

  lemma {:induction false} SoundTrans(s: Text, x: Cursor, m: Cursor, y: Cursor)
    requires Sound(s, x, m) && Sound(s, m, y)
    ensures Sound(s, x, y)
  {
    forall g: nat
      ensures GroupKept(g, x, y)
    {
      assert GroupKept(g, x, m) && GroupKept(g, m, y);
    }
  }

  /** A derivation moves forward and leaves every group unset or ordered, for all patterns. */
  lemma {:induction false} DerivationIsSound(s: Text, node: Node, groups: nat, x: Cursor, y: Cursor)
    requires Derives(s, node, x, y) && WellFormed(node, groups) && |x.saves| == 2 * groups
    ensures Sound(s, x, y)
    decreases node, 0
  {
    match node
    case Empty =>
    case Atom(_) =>
    case Concat(nodes) => SeqIsSound(s, nodes, groups, x, y);
    case Alt(branches) => AltIsSound(s, branches, groups, x, y);
    case Repeat(n, min, max, _) =>
      var k: nat :| DerivesTimes(s, n, k, x, y);
      TimesIsSound(s, n, groups, k, x, y);
    case Group(index, n) =>
      if index.None? {
        DerivationIsSound(s, n, groups, x, y);
      } else {
        var open := 2 * index.value;
        var m: Cursor :| Derives(s, n, x.Record(open), m) && y == m.Record(open + 1);
        DerivationIsSound(s, n, groups, x.Record(open), m);
        forall g: nat
          ensures GroupKept(g, x, y)
        {
          assert GroupKept(g, x.Record(open), m);
        }
      }
  }

  lemma {:induction false} SeqIsSound(s: Text, nodes: seq<Node>, groups: nat, x: Cursor, y: Cursor)
    requires DerivesSeq(s, nodes, x, y) && AllWellFormed(nodes, groups) && |x.saves| == 2 * groups
    ensures Sound(s, x, y)
    decreases nodes, 0
  {
    if nodes != [] {
      var m: Cursor :| Derives(s, nodes[0], x, m) && DerivesSeq(s, nodes[1..], m, y);
      DerivationIsSound(s, nodes[0], groups, x, m);
      SeqIsSound(s, nodes[1..], groups, m, y);
      SoundTrans(s, x, m, y);
    }
  }

  lemma {:induction false} AltIsSound(s: Text, branches: seq<Node>, groups: nat, x: Cursor, y: Cursor)
    requires DerivesAlt(s, branches, x, y) && AllWellFormed(branches, groups) && |x.saves| == 2 * groups
    ensures Sound(s, x, y)
    decreases branches, 0
  {
    if Derives(s, branches[0], x, y) {
      DerivationIsSound(s, branches[0], groups, x, y);
    } else {
      AltIsSound(s, branches[1..], groups, x, y);
    }
  }

  lemma {:induction false} TimesIsSound(s: Text, node: Node, groups: nat, k: nat, x: Cursor, y: Cursor)
    requires DerivesTimes(s, node, k, x, y) && WellFormed(node, groups) && |x.saves| == 2 * groups
    ensures Sound(s, x, y)
    decreases node, k + 1
  {
    if k > 0 {
      var m: Cursor :| Derives(s, node, x, m) && DerivesTimes(s, node, k - 1, m, y);
      DerivationIsSound(s, node, groups, x, m);
      TimesIsSound(s, node, groups, k - 1, m, y);
      SoundTrans(s, x, m, y);
    }
  }

  /** Some path of at most `fuel` moves leads from `pc` and `x` to acceptance with captures `out`. */
  ghost predicate Reaches(p: Program, s: Text, fuel: nat, pc: nat, x: Cursor, out: Saves) {
    fuel > 0 && pc < |p| && x.pos <= |s.chars| &&
    match p[pc]
    case Match => out == x.saves
    case Check(t) => Passes(t, s, x.pos) && Reaches(p, s, fuel - 1, pc + 1, Cursor(x.pos + Width(t), x.saves), out)
    case Save(slot) => slot < |x.saves| && Reaches(p, s, fuel - 1, pc + 1, x.Record(slot), out)
    case Jmp(target) => Reaches(p, s, fuel - 1, target, x, out)
    case Split(a, b) => Reaches(p, s, fuel - 1, a, x, out) || Reaches(p, s, fuel - 1, b, x, out)
  }

  lemma {:induction false} RunReaches(p: Program, s: Text, fuel: nat, pc: nat, x: Cursor, active: set<Key>)
    requires x.pos <= |s.chars|
    requires Run(p, s, fuel, pc, x.pos, x.saves, active).Matched?
    ensures Reaches(p, s, fuel, pc, x, Run(p, s, fuel, pc, x.pos, x.saves, active).saves)
    decreases fuel
  {
    match p[pc]
    case Match =>
    case Check(t) => RunReaches(p, s, fuel - 1, pc + 1, Cursor(x.pos + Width(t), x.saves), active);
    case Save(slot) => RunReaches(p, s, fuel - 1, pc + 1, x.Record(slot), active);
    case Jmp(target) => RunReaches(p, s, fuel - 1, target, x, active);
    case Split(a, b) =>
      var entered := active + {(pc, x.pos)};
      if (pc, x.pos) !in active && Run(p, s, fuel - 1, a, x.pos, x.saves, entered).Matched? {
        RunReaches(p, s, fuel - 1, a, x, entered);
      } else {
        RunReaches(p, s, fuel - 1, b, x, active);
      }
  }

  lemma {:induction false} ReachesMonotone(p: Program, s: Text, f: nat, g: nat, pc: nat, x: Cursor, out: Saves)
    requires Reaches(p, s, f, pc, x, out) && f <= g
    ensures Reaches(p, s, g, pc, x, out)
    decreases f
  {
    match p[pc]
    case Match =>
    case Check(t) => ReachesMonotone(p, s, f - 1, g - 1, pc + 1, Cursor(x.pos + Width(t), x.saves), out);
    case Save(slot) => ReachesMonotone(p, s, f - 1, g - 1, pc + 1, x.Record(slot), out);
    case Jmp(target) => ReachesMonotone(p, s, f - 1, g - 1, target, x, out);
    case Split(a, b) =>
      if Reaches(p, s, f - 1, a, x, out) {
        ReachesMonotone(p, s, f - 1, g - 1, a, x, out);
      } else {
        ReachesMonotone(p, s, f - 1, g - 1, b, x, out);
      }
  }

  lemma {:induction false} FollowJmp(p: Program, s: Text, fuel: nat, pc: nat, x: Cursor, out: Saves)
    requires Reaches(p, s, fuel, pc, x, out) && p[pc].Jmp?
    ensures fuel > 0 && Reaches(p, s, fuel - 1, p[pc].target, x, out)
  {
  }

  /** An accepting path through a node's code is a derivation followed by an accepting path from its end. */
  lemma {:induction false} PathDerives(p: Program, s: Text, groups: nat, fuel: nat, lo: nat, node: Node, x: Cursor, out: Saves)
    returns (y: Cursor)
    requires Segment(p, lo, node) && WellFormed(node, groups) && Reaches(p, s, fuel, lo, x, out)
    ensures Derives(s, node, x, y) && Reaches(p, s, fuel, lo + Len(node), y, out)
    decreases node, 0
  {
    match node
    case Empty => y := x;
    case Atom(t) =>
      y := Cursor(x.pos + Width(t), x.saves);
      ReachesMonotone(p, s, fuel - 1, fuel, lo + 1, y, out);
    case Concat(nodes) => y := PathDerivesSeq(p, s, groups, fuel, lo, nodes, x, out);
    case Alt(branches) => y := PathDerivesAlt(p, s, groups, fuel, lo, branches, x, out);
    case Repeat(n, min, max, greedy) =>
      var k: nat;
      k, y := PathDerivesRepeat(p, s, groups, fuel, lo, n, min, Extra(min, max), greedy, x, out);
    case Group(index, n) =>
      if index.None? {
        y := PathDerives(p, s, groups, fuel, lo, n, x, out);
      } else {
        var m := PathDerivesGroup(p, s, groups, fuel, lo, n, 2 * index.value, x, out);
        y := m.Record(2 * index.value + 1);
      }
  }

  lemma {:induction false} PathDerivesGroup(p: Program, s: Text, groups: nat, fuel: nat, lo: nat, node: Node,
                                            slot: nat, x: Cursor, out: Saves)
    returns (m: Cursor)
    requires lo + Len(node) + 2 <= |p| && p[lo] == Save(slot) && p[lo + 1 + Len(node)] == Save(slot + 1)
    requires Segment(p, lo + 1, node) && WellFormed(node, groups) && Reaches(p, s, fuel, lo, x, out)
    ensures Derives(s, node, x.Record(slot), m) && Reaches(p, s, fuel, lo + Len(node) + 2, m.Record(slot + 1), out)
    decreases node, 1
  {
    var close := lo + 1 + Len(node);
    m := PathDerives(p, s, groups, fuel - 1, lo + 1, node, x.Record(slot), out);
    ReachesMonotone(p, s, fuel - 2, fuel, close + 1, m.Record(slot + 1), out);
  }

  lemma {:induction false} PathDerivesRepeat(p: Program, s: Text, groups: nat, fuel: nat, lo: nat, node: Node, min: nat,
                                             extra: Option<nat>, greedy: bool, x: Cursor, out: Saves)
    returns (k: nat, y: Cursor)
    requires SegmentCopies(p, lo, node, min) && SegmentTail(p, lo + LenCopies(node, min), node, extra, greedy)
    requires WellFormed(node, groups) && Reaches(p, s, fuel, lo, x, out)
    ensures min <= k && (extra.Some? ==> k <= min + extra.value) && DerivesTimes(s, node, k, x, y)
    ensures Reaches(p, s, fuel, lo + LenCopies(node, min) + LenTail(node, extra), y, out)
    decreases node, (if extra.Some? then extra.value else 0) + min + 3
  {
    var m := PathDerivesCopies(p, s, groups, fuel, lo, node, min, x, out);
    k, y := PathDerivesTail(p, s, groups, fuel, lo + LenCopies(node, min), node, extra, greedy, m, out);
    TimesJoin(s, node, min, k, x, m, y);
    k := k + min;
  }

  lemma {:induction false} TimesJoin(s: Text, node: Node, i: nat, j: nat, x: Cursor, m: Cursor, y: Cursor)
    requires DerivesTimes(s, node, i, x, m) && DerivesTimes(s, node, j, m, y)
    ensures DerivesTimes(s, node, i + j, x, y)
    decreases i
  {
    if i > 0 {
      var n: Cursor :| Derives(s, node, x, n) && DerivesTimes(s, node, i - 1, n, m);
      TimesJoin(s, node, i - 1, j, n, m, y);
    }
  }

  lemma {:induction false} PathDerivesSeq(p: Program, s: Text, groups: nat, fuel: nat, lo: nat, nodes: seq<Node>,
                                          x: Cursor, out: Saves)
    returns (y: Cursor)
    requires SegmentSeq(p, lo, nodes) && AllWellFormed(nodes, groups) && Reaches(p, s, fuel, lo, x, out)
    ensures DerivesSeq(s, nodes, x, y) && Reaches(p, s, fuel, lo + LenSeq(nodes), y, out)
    decreases nodes, 0
  {
    if nodes == [] {
      y := x;
    } else {
      var m := PathDerives(p, s, groups, fuel, lo, nodes[0], x, out);
      y := PathDerivesSeq(p, s, groups, fuel, lo + Len(nodes[0]), nodes[1..], m, out);
    }
  }

  lemma {:induction false} PathDerivesAlt(p: Program, s: Text, groups: nat, fuel: nat, lo: nat, branches: seq<Node>,
                                          x: Cursor, out: Saves)
    returns (y: Cursor)
    requires SegmentAlt(p, lo, branches) && branches != [] && AllWellFormed(branches, groups)
    requires Reaches(p, s, fuel, lo, x, out)
    ensures DerivesAlt(s, branches, x, y) && Reaches(p, s, fuel, lo + LenAlt(branches), y, out)
    decreases branches, 0
  {
    if |branches| == 1 {
      y := PathDerives(p, s, groups, fuel, lo, branches[0], x, out);
    } else if Reaches(p, s, fuel - 1, lo + 1, x, out) {
      y := PathDerives(p, s, groups, fuel - 1, lo + 1, branches[0], x, out);
      FollowJmp(p, s, fuel - 1, lo + 1 + Len(branches[0]), y, out);
      ReachesMonotone(p, s, fuel - 2, fuel, lo + LenAlt(branches), y, out);
    } else {
      var rest := lo + 2 + Len(branches[0]);
      y := PathDerivesAlt(p, s, groups, fuel - 1, rest, branches[1..], x, out);
      ReachesMonotone(p, s, fuel - 1, fuel, lo + LenAlt(branches), y, out);
    }
  }

  lemma {:induction false} PathDerivesCopies(p: Program, s: Text, groups: nat, fuel: nat, lo: nat, node: Node,
                                             k: nat, x: Cursor, out: Saves)
    returns (y: Cursor)
    requires SegmentCopies(p, lo, node, k) && WellFormed(node, groups) && Reaches(p, s, fuel, lo, x, out)
    ensures DerivesTimes(s, node, k, x, y) && Reaches(p, s, fuel, lo + LenCopies(node, k), y, out)
    decreases node, k + 1
  {
    if k == 0 {
      y := x;
    } else {
      var m := PathDerives(p, s, groups, fuel, lo, node, x, out);
      y := PathDerivesCopies(p, s, groups, fuel, lo + Len(node), node, k - 1, m, out);
    }
  }

  lemma {:induction false} PathDerivesTail(p: Program, s: Text, groups: nat, fuel: nat, lo: nat, node: Node, extra: Option<nat>,
                                           greedy: bool, x: Cursor, out: Saves)
    returns (k: nat, y: Cursor)
    requires SegmentTail(p, lo, node, extra, greedy) && WellFormed(node, groups) && Reaches(p, s, fuel, lo, x, out)
    ensures DerivesTimes(s, node, k, x, y) && (extra.Some? ==> k <= extra.value)
    ensures Reaches(p, s, fuel, lo + LenTail(node, extra), y, out)
    decreases node, (if extra.Some? then extra.value else 0) + 2, fuel
  {
    match extra
    case None => k, y := PathDerivesLoop(p, s, groups, fuel, lo, node, greedy, x, out);
    case Some(n) => k, y := PathDerivesOptional(p, s, groups, fuel, lo, node, n, lo + LenOptional(node, n), greedy, x, out);
  }

  lemma {:induction false} PathDerivesLoop(p: Program, s: Text, groups: nat, fuel: nat, lo: nat, node: Node,
                                           greedy: bool, x: Cursor, out: Saves)
    returns (k: nat, y: Cursor)
    requires SegmentLoop(p, lo, node, greedy) && WellFormed(node, groups) && Reaches(p, s, fuel, lo, x, out)
    ensures DerivesTimes(s, node, k, x, y) && Reaches(p, s, fuel, lo + Len(node) + 2, y, out)
    decreases node, 1, fuel
  {
    var end := lo + Len(node) + 2;
    if Reaches(p, s, fuel - 1, end, x, out) {
      k, y := 0, x;
      ReachesMonotone(p, s, fuel - 1, fuel, end, y, out);
    } else {
      var m := PathDerives(p, s, groups, fuel - 1, lo + 1, node, x, out);
      k, y := PathDerivesLoop(p, s, groups, fuel - 2, lo, node, greedy, m, out);
      ReachesMonotone(p, s, fuel - 2, fuel, end, y, out);
      k := k + 1;
    }
  }

  lemma {:induction false} PathDerivesOptional(p: Program, s: Text, groups: nat, fuel: nat, lo: nat, node: Node, n: nat, end: nat,
                                               greedy: bool, x: Cursor, out: Saves)
    returns (k: nat, y: Cursor)
    requires SegmentOptional(p, lo, node, n, end, greedy) && end == lo + LenOptional(node, n)
    requires WellFormed(node, groups) && Reaches(p, s, fuel, lo, x, out)
    ensures DerivesTimes(s, node, k, x, y) && k <= n && Reaches(p, s, fuel, end, y, out)
    decreases node, n + 1, fuel
  {
    if n == 0 {
      k, y := 0, x;
    } else if Reaches(p, s, fuel - 1, end, x, out) {
      k, y := 0, x;
      ReachesMonotone(p, s, fuel - 1, fuel, end, y, out);
    } else {
      var m := PathDerives(p, s, groups, fuel - 1, lo + 1, node, x, out);
      k, y := PathDerivesOptional(p, s, groups, fuel - 1, lo + 1 + Len(node), node, n - 1, end, greedy, m, out);
      ReachesMonotone(p, s, fuel - 1, fuel, end, y, out);
      k := k + 1;
    }
  }

  /** Whatever a run of the compiled pattern returns is a derivation, for every pattern. */
  lemma {:induction false} MatchIsDerivation(p: Program, s: Text, ast: Node, groups: nat, fuel: nat, pos: nat,
                                             saves: Saves, active: set<Key>)
    returns (y: Cursor)
    requires WellFormed(ast, groups) && Compiled(p, ast) && pos <= |s.chars| && |saves| == 2 * groups
    requires Run(p, s, fuel, 0, pos, saves, active).Matched?
    ensures Derives(s, ast, Cursor(pos, saves).Record(0), y)
    ensures Run(p, s, fuel, 0, pos, saves, active).saves == y.Record(1).saves
  {
    var x := Cursor(pos, saves);
    var out := Run(p, s, fuel, 0, pos, saves, active).saves;
    RunReaches(p, s, fuel, 0, x, active);
    y := PathDerives(p, s, groups, fuel - 1, 1, ast, x.Record(0), out);
  }
}
