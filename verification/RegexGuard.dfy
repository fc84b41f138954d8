/** The empty-loop guard never loses a match: a halting run succeeds exactly when the pattern's
    language has a match at its start. */
module RegexGuard {
  import opened Options
  import opened RegexSyntax
  import opened RegexProgram
  import opened RegexCompiler
  import opened RegexExec
  import opened RegexLanguage

  /** Some path of at most `fuel` moves from `pc` and `pos` accepts without entering the first
      branch of an active split. */
  ghost predicate Accepts(p: Program, s: Text, fuel: nat, pc: nat, pos: nat, active: set<Key>) {
    fuel > 0 && pc < |p| && pos <= |s.chars| &&
    match p[pc]
    case Match => true
    case Check(t) => Passes(t, s, pos) && Accepts(p, s, fuel - 1, pc + 1, pos + Width(t), active)
    case Save(_) => Accepts(p, s, fuel - 1, pc + 1, pos, active)
    case Jmp(target) => Accepts(p, s, fuel - 1, target, pos, active)
    case Split(a, b) =>
      || ((pc, pos) !in active && Accepts(p, s, fuel - 1, a, pos, active))
      || Accepts(p, s, fuel - 1, b, pos, active)
  }

  lemma {:induction false} AcceptsMonotone(p: Program, s: Text, f: nat, g: nat, pc: nat, pos: nat, active: set<Key>)
    requires Accepts(p, s, f, pc, pos, active) && f <= g
    ensures Accepts(p, s, g, pc, pos, active)
    decreases f
  {
    match p[pc]
    case Match =>
    case Check(t) => AcceptsMonotone(p, s, f - 1, g - 1, pc + 1, pos + Width(t), active);
    case Save(_) => AcceptsMonotone(p, s, f - 1, g - 1, pc + 1, pos, active);
    case Jmp(target) => AcceptsMonotone(p, s, f - 1, g - 1, target, pos, active);
    case Split(a, b) =>
      if (pc, pos) !in active && Accepts(p, s, f - 1, a, pos, active) {
        AcceptsMonotone(p, s, f - 1, g - 1, a, pos, active);
      } else {
        AcceptsMonotone(p, s, f - 1, g - 1, b, pos, active);
      }
  }

  /** A path too short to pass through `key` still accepts when `key` becomes active. */
  lemma {:induction false} AvoidsKey(p: Program, s: Text, fuel: nat, pc: nat, pos: nat, active: set<Key>, key: Key)
    requires Accepts(p, s, fuel, pc, pos, active) && !Accepts(p, s, fuel, key.0, key.1, active)
    ensures Accepts(p, s, fuel, pc, pos, active + {key})
    decreases fuel
  {
    if Accepts(p, s, fuel - 1, key.0, key.1, active) {
      AcceptsMonotone(p, s, fuel - 1, fuel, key.0, key.1, active);
    }
    match p[pc]
    case Match =>
    case Check(t) => AvoidsKey(p, s, fuel - 1, pc + 1, pos + Width(t), active, key);
    case Save(_) => AvoidsKey(p, s, fuel - 1, pc + 1, pos, active, key);
    case Jmp(target) => AvoidsKey(p, s, fuel - 1, target, pos, active, key);
    case Split(a, b) =>
      if (pc, pos) !in active && Accepts(p, s, fuel - 1, a, pos, active) {
        AvoidsKey(p, s, fuel - 1, a, pos, active, key);
      } else {
        AvoidsKey(p, s, fuel - 1, b, pos, active, key);
      }
  }

  /** A halting run succeeds whenever an accepting path is open to it: a shortest one never comes
      back to the split it leaves, so entering the first branch with the guard set loses nothing. */
  lemma {:induction false} GuardLosesNothing(p: Program, s: Text, fuel: nat, n: nat, pc: nat, pos: nat, saves: Saves,
                                             active: set<Key>)
    requires Accepts(p, s, n, pc, pos, active)
    requires Run(p, s, fuel, pc, pos, saves, active) != Unfinished
    ensures Run(p, s, fuel, pc, pos, saves, active).Matched?
    decreases fuel, n
  {
    match p[pc]
    case Match =>
    case Check(t) => GuardLosesNothing(p, s, fuel - 1, n - 1, pc + 1, pos + Width(t), saves, active);
    case Save(slot) => GuardLosesNothing(p, s, fuel - 1, n - 1, pc + 1, pos, saves[slot := Some(pos)], active);
    case Jmp(target) => GuardLosesNothing(p, s, fuel - 1, n - 1, target, pos, saves, active);
    case Split(a, b) =>
      var key := (pc, pos);
      if key in active {
        GuardLosesNothing(p, s, fuel - 1, n - 1, b, pos, saves, active);
      } else if Accepts(p, s, n - 1, pc, pos, active) {
        GuardLosesNothing(p, s, fuel, n - 1, pc, pos, saves, active);
      } else if Accepts(p, s, n - 1, a, pos, active) {
        AvoidsKey(p, s, n - 1, a, pos, active, key);
        GuardLosesNothing(p, s, fuel - 1, n - 1, a, pos, saves, active + {key});
      } else if Run(p, s, fuel - 1, a, pos, saves, active + {key}) == Failed {
        GuardLosesNothing(p, s, fuel - 1, n - 1, b, pos, saves, active);
      }
  }

  /** A derivation is traced by a path through the node's code. */
  lemma {:induction false} DerivationAccepts(p: Program, s: Text, groups: nat, fuel: nat, lo: nat, node: Node,
                                             x: Cursor, y: Cursor)
    returns (n: nat)
    requires Segment(p, lo, node) && WellFormed(node, groups)
    requires Derives(s, node, x, y) && Accepts(p, s, fuel, lo + Len(node), y.pos, {})
    ensures Accepts(p, s, n, lo, x.pos, {})
    decreases node, 1
  {
    match node
    case Empty => n := fuel;
    case Atom(_) => n := fuel + 1;
    case Concat(nodes) => n := SeqAccepts(p, s, groups, fuel, lo, nodes, x, y);
    case Alt(branches) => n := AltAccepts(p, s, groups, fuel, lo, branches, x, y);
    case _ => n := NestedAccepts(p, s, groups, fuel, lo, node, x, y);
  }

  lemma {:induction false} NestedAccepts(p: Program, s: Text, groups: nat, fuel: nat, lo: nat, node: Node, x: Cursor, y: Cursor)
    returns (n: nat)
    requires (node.Repeat? || node.Group?) && Segment(p, lo, node) && WellFormed(node, groups)
    requires Derives(s, node, x, y) && Accepts(p, s, fuel, lo + Len(node), y.pos, {})
    ensures Accepts(p, s, n, lo, x.pos, {})
    decreases node, 0
  {
    match node
    case Repeat(body, min, max, greedy) =>
      var k: nat :| min <= k && (max.Some? ==> k <= max.value) && DerivesTimes(s, body, k, x, y);
      n := RepeatAccepts(p, s, groups, fuel, lo, body, min, Extra(min, max), greedy, k, x, y);
    case Group(None, inner) => n := DerivationAccepts(p, s, groups, fuel, lo, inner, x, y);
    case Group(Some(g), inner) =>
      var m: Cursor :| Derives(s, inner, x.Record(2 * g), m) && y == m.Record(2 * g + 1);
      n := GroupAccepts(p, s, groups, fuel, lo, inner, 2 * g, x, m);
  }

  lemma {:induction false} GroupAccepts(p: Program, s: Text, groups: nat, fuel: nat, lo: nat, node: Node, slot: nat,
                                        x: Cursor, m: Cursor)
    returns (n: nat)
    requires lo + Len(node) + 2 <= |p| && p[lo] == Save(slot) && p[lo + 1 + Len(node)] == Save(slot + 1)
    requires Segment(p, lo + 1, node) && WellFormed(node, groups)
    requires Derives(s, node, x.Record(slot), m) && Accepts(p, s, fuel, lo + Len(node) + 2, m.pos, {})
    ensures Accepts(p, s, n, lo, x.pos, {})
    decreases node, 2
  {
    n := DerivationAccepts(p, s, groups, fuel + 1, lo + 1, node, x.Record(slot), m);
    n := n + 1;
  }

  lemma {:induction false} SeqAccepts(p: Program, s: Text, groups: nat, fuel: nat, lo: nat, nodes: seq<Node>,
                                      x: Cursor, y: Cursor)
    returns (n: nat)
    requires SegmentSeq(p, lo, nodes) && AllWellFormed(nodes, groups)
    requires DerivesSeq(s, nodes, x, y) && Accepts(p, s, fuel, lo + LenSeq(nodes), y.pos, {})
    ensures Accepts(p, s, n, lo, x.pos, {})
    decreases nodes, 0
  {
    if nodes == [] {
      n := fuel;
    } else {
      var m: Cursor :| Derives(s, nodes[0], x, m) && DerivesSeq(s, nodes[1..], m, y);
      n := SeqAccepts(p, s, groups, fuel, lo + Len(nodes[0]), nodes[1..], m, y);
      n := DerivationAccepts(p, s, groups, n, lo, nodes[0], x, m);
    }
  }

  lemma {:induction false} AltAccepts(p: Program, s: Text, groups: nat, fuel: nat, lo: nat, branches: seq<Node>,
                                      x: Cursor, y: Cursor)
    returns (n: nat)
    requires SegmentAlt(p, lo, branches) && AllWellFormed(branches, groups)
    requires DerivesAlt(s, branches, x, y) && Accepts(p, s, fuel, lo + LenAlt(branches), y.pos, {})
    ensures Accepts(p, s, n, lo, x.pos, {})
    decreases branches, 0
  {
    if |branches| == 1 {
      n := DerivationAccepts(p, s, groups, fuel, lo, branches[0], x, y);
    } else if Derives(s, branches[0], x, y) {
      var jmp := lo + 1 + Len(branches[0]);
      assert Accepts(p, s, fuel + 1, jmp, y.pos, {});
      n := DerivationAccepts(p, s, groups, fuel + 1, lo + 1, branches[0], x, y);
      n := n + 1;
    } else {
      n := AltAccepts(p, s, groups, fuel, lo + 2 + Len(branches[0]), branches[1..], x, y);
      n := n + 1;
    }
  }

  lemma {:induction false} RepeatAccepts(p: Program, s: Text, groups: nat, fuel: nat, lo: nat, node: Node, min: nat,
                                         extra: Option<nat>, greedy: bool, k: nat, x: Cursor, y: Cursor)
    returns (n: nat)
    requires SegmentCopies(p, lo, node, min) && SegmentTail(p, lo + LenCopies(node, min), node, extra, greedy)
    requires WellFormed(node, groups) && min <= k && (extra.Some? ==> k <= min + extra.value)
    requires DerivesTimes(s, node, k, x, y)
    requires Accepts(p, s, fuel, lo + LenCopies(node, min) + LenTail(node, extra), y.pos, {})
    ensures Accepts(p, s, n, lo, x.pos, {})
    decreases node, k + 2, 1
  {
    if min > 0 {
      var m: Cursor :| Derives(s, node, x, m) && DerivesTimes(s, node, k - 1, m, y);
      n := RepeatAccepts(p, s, groups, fuel, lo + Len(node), node, min - 1, extra, greedy, k - 1, m, y);
      n := DerivationAccepts(p, s, groups, n, lo, node, x, m);
    } else if extra.None? {
      n := LoopAccepts(p, s, groups, fuel, lo, node, greedy, k, x, y);
    } else {
      n := OptionalAccepts(p, s, groups, fuel, lo, node, extra.value, lo + LenOptional(node, extra.value), greedy, k, x, y);
    }
  }

  lemma {:induction false} LoopAccepts(p: Program, s: Text, groups: nat, fuel: nat, lo: nat, node: Node,
                                       greedy: bool, k: nat, x: Cursor, y: Cursor)
    returns (n: nat)
    requires SegmentLoop(p, lo, node, greedy) && WellFormed(node, groups)
    requires DerivesTimes(s, node, k, x, y) && Accepts(p, s, fuel, lo + Len(node) + 2, y.pos, {})
    ensures Accepts(p, s, n, lo, x.pos, {})
    decreases node, k + 2, 0
  {
    if k == 0 {
      n := fuel + 1;
    } else {
      var m: Cursor :| Derives(s, node, x, m) && DerivesTimes(s, node, k - 1, m, y);
      n := LoopAccepts(p, s, groups, fuel, lo, node, greedy, k - 1, m, y);
      assert Accepts(p, s, n + 1, lo + 1 + Len(node), m.pos, {});
      n := DerivationAccepts(p, s, groups, n + 1, lo + 1, node, x, m);
      n := n + 1;
    }
  }

  lemma {:induction false} OptionalAccepts(p: Program, s: Text, groups: nat, fuel: nat, lo: nat, node: Node, n: nat, end: nat,
                                           greedy: bool, k: nat, x: Cursor, y: Cursor)
    returns (steps: nat)
    requires SegmentOptional(p, lo, node, n, end, greedy) && end == lo + LenOptional(node, n)
    requires WellFormed(node, groups) && k <= n
    requires DerivesTimes(s, node, k, x, y) && Accepts(p, s, fuel, end, y.pos, {})
    ensures Accepts(p, s, steps, lo, x.pos, {})
    decreases node, k + 2, 0
  {
    if k == 0 {
      steps := if n == 0 then fuel else fuel + 1;
    } else {
      var m: Cursor :| Derives(s, node, x, m) && DerivesTimes(s, node, k - 1, m, y);
      steps := OptionalAccepts(p, s, groups, fuel, lo + 1 + Len(node), node, n - 1, end, greedy, k - 1, m, y);
      steps := DerivationAccepts(p, s, groups, steps, lo + 1, node, x, m);
      steps := steps + 1;
    }
  }

  /** A match of the pattern can start at `pos`. */
  ghost predicate MatchesAt(s: Text, ast: Node, pos: nat, saves: Saves) {
    exists y: Cursor :: Derives(s, ast, Cursor(pos, saves).Record(0), y)
  }

  /** A halting run of the compiled pattern succeeds exactly when the language has a match there. */
  lemma {:induction false} RunDecidesLanguage(p: Program, s: Text, ast: Node, groups: nat, fuel: nat, pos: nat, saves: Saves)
    requires WellFormed(ast, groups) && Compiled(p, ast) && pos <= |s.chars| && |saves| == 2 * groups && groups > 0
    requires Run(p, s, fuel, 0, pos, saves, {}) != Unfinished
    ensures Run(p, s, fuel, 0, pos, saves, {}).Matched? <==> MatchesAt(s, ast, pos, saves)
  {
    var x := Cursor(pos, saves).Record(0);
    if Run(p, s, fuel, 0, pos, saves, {}).Matched? {
      var y := MatchIsDerivation(p, s, ast, groups, fuel, pos, saves, {});
    }
    if MatchesAt(s, ast, pos, saves) {
      var y: Cursor :| Derives(s, ast, x, y);
      DerivationIsSound(s, ast, groups, x, y);
      assert Accepts(p, s, 1, 2 + Len(ast), y.pos, {});
      assert Accepts(p, s, 2, 1 + Len(ast), y.pos, {});
      var n := DerivationAccepts(p, s, groups, 2, 1, ast, x, y);
      GuardLosesNothing(p, s, fuel, n + 1, 0, pos, saves, {});
    }
  }
}
