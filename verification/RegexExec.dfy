/** The backtracking executor: its step-bounded meaning and the in-place method that realises it. */
module RegexExec {
  import opened Options
  import opened RegexSyntax
  import opened RegexProgram

  type Saves = seq<Option<nat>>

  /** A split instruction at a text position. */
  type Key = (nat, nat)

  /** `Unfinished` covers both running out of steps and an index out of bounds. */
  datatype Outcome = Unfinished | Failed | Matched(saves: Saves)

  /** What the executor does from `pc` and `pos` within `fuel` steps. A split that is already
      active at this position is not entered again: its second branch is taken at once. */
  ghost function Run(p: Program, s: Text, fuel: nat, pc: nat, pos: nat, saves: Saves, active: set<Key>): Outcome
    requires pos <= |s.chars|
  {
    if fuel == 0 || pc >= |p| then Unfinished
    else
      match p[pc]
      case Match => Matched(saves)
      case Check(t) =>
        if Passes(t, s, pos) then Run(p, s, fuel - 1, pc + 1, pos + Width(t), saves, active) else Failed
      case Save(slot) =>
        if slot < |saves| then Run(p, s, fuel - 1, pc + 1, pos, saves[slot := Some(pos)], active) else Unfinished
      case Jmp(target) => Run(p, s, fuel - 1, target, pos, saves, active)
      case Split(a, b) =>
        if (pc, pos) in active then Run(p, s, fuel - 1, b, pos, saves, active)
        else
          var first := Run(p, s, fuel - 1, a, pos, saves, active + {(pc, pos)});
          if first == Failed then Run(p, s, fuel - 1, b, pos, saves, active) else first
  }

  lemma {:induction false} RunMonotone(p: Program, s: Text, f: nat, g: nat, pc: nat, pos: nat, saves: Saves, active: set<Key>)
    requires pos <= |s.chars| && f <= g
    requires Run(p, s, f, pc, pos, saves, active) != Unfinished
    ensures Run(p, s, g, pc, pos, saves, active) == Run(p, s, f, pc, pos, saves, active)
    decreases f
  {
    match p[pc]
    case Match =>
    case Check(t) =>
      if Passes(t, s, pos) {
        RunMonotone(p, s, f - 1, g - 1, pc + 1, pos + Width(t), saves, active);
      }
    case Save(slot) => RunMonotone(p, s, f - 1, g - 1, pc + 1, pos, saves[slot := Some(pos)], active);
    case Jmp(target) => RunMonotone(p, s, f - 1, g - 1, target, pos, saves, active);
    case Split(a, b) =>
      if (pc, pos) in active {
        RunMonotone(p, s, f - 1, g - 1, b, pos, saves, active);
      } else {
        RunMonotone(p, s, f - 1, g - 1, a, pos, saves, active + {(pc, pos)});
        if Run(p, s, f - 1, a, pos, saves, active + {(pc, pos)}) == Failed {
          RunMonotone(p, s, f - 1, g - 1, b, pos, saves, active);
        }
      }
  }

  /** The `(split, position)` states on the recursion stack. */
  class ActiveSet {
    var keys: set<Key>

    constructor ()
      ensures keys == {}
    {
      keys := {};
    }
  }

  /** Runs `p` from `pc0` against `s` at `pos0`, recording capture boundaries in `saves`.
      A failed run leaves `saves` as it found it; every run leaves `active` as it found it. */
  method ExecInner(p: Program, s: Text, pc0: nat, pos0: nat, saves: array<Option<nat>>, active: ActiveSet, ghost fuel: nat)
    returns (r: bool)
    requires pos0 <= |s.chars|
    requires Run(p, s, fuel, pc0, pos0, saves[..], active.keys) != Unfinished
    modifies saves, active
    ensures Run(p, s, fuel, pc0, pos0, old(saves[..]), old(active.keys)) == if r then Matched(saves[..]) else Failed
    ensures !r ==> saves[..] == old(saves[..])
    ensures active.keys == old(active.keys)
    decreases fuel
  {
    var pc: nat, pos: nat := pc0, pos0;
    ghost var left: nat := fuel;
    while true
      invariant pos <= |s.chars| && left <= fuel
      invariant saves[..] == old(saves[..]) && active.keys == old(active.keys)
      invariant Run(p, s, left, pc, pos, saves[..], active.keys)
             == Run(p, s, fuel, pc0, pos0, old(saves[..]), old(active.keys))
      decreases left
    {
      left := left - 1;
      match p[pc]
      case Check(t) =>
        var passed := TestAt(t, s, pos);
        if !passed {
          return false;
        }
        pos := pos + Width(t);
        pc := pc + 1;
      case Save(slot) =>
        var prev := saves[slot];
        saves[slot] := Some(pos);
        assert saves[..] == old(saves[..])[slot := Some(pos)];
        r := ExecInner(p, s, pc + 1, pos, saves, active, left);
        if !r {
          saves[slot] := prev;
          assert saves[..] == old(saves[..]);
        }
        return r;
      case Jmp(target) =>
        pc := target;
      case Split(a, b) =>
        var key := (pc, pos);
        if key in active.keys {
          pc := b;
        } else {
          active.keys := active.keys + {key};
          r := ExecInner(p, s, a, pos, saves, active, left);
          active.keys := active.keys - {key};
          assert active.keys == old(active.keys);
          if r {
            return true;
          }
          pc := b;
        }
      case Match =>
        return true;
    }
  }

  /** One test, scanning a character class item by item. */
  method TestAt(t: Test, s: Text, pos: nat) returns (r: bool)
    requires pos <= |s.chars|
    ensures r == Passes(t, s, pos)
  {
    if t.Class? && pos < |s.chars| {
      r := ClassMatches(s, t.items, t.negated, s.chars[pos]);
    } else {
      r := Passes(t, s, pos);
    }
  }

  /** The executor as the searches call it: from instruction 0, no split active. */
  method Exec(p: Program, s: Text, pos: nat, saves: array<Option<nat>>, ghost fuel: nat) returns (r: bool)
    requires pos <= |s.chars|
    requires Run(p, s, fuel, 0, pos, saves[..], {}) != Unfinished
    modifies saves
    ensures Run(p, s, fuel, 0, pos, old(saves[..]), {}) == if r then Matched(saves[..]) else Failed
    ensures !r ==> saves[..] == old(saves[..])
  {
    var active := new ActiveSet();
    r := ExecInner(p, s, 0, pos, saves, active, fuel);
  }
}
