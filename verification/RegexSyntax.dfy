/** Abstract syntax of patterns, the single-position tests they are built from, and the static
    conditions under which the theorems about matching hold. */
module RegexSyntax {
  import opened Options
  import opened WhiteSpace

  /** The haystack together with the Unicode table the engine consults. */
  datatype Text = Text(chars: seq<char>, alphanumeric: set<char>)

  datatype ClassItem =
    | Single(c: char)
    | Range(lo: char, hi: char)
    | Digit(positive: bool)
    | Word(positive: bool)
    | Space(positive: bool)

  /** What can be decided at one position: three tests that take a character, three that do not. */
  datatype Test =
    | Char(c: char)
    | AnyChar
    | Class(items: seq<ClassItem>, negated: bool)
    | Start
    | End
    | WordBoundary(want: bool)

  datatype Node =
    | Empty
    | Atom(test: Test)
    | Concat(nodes: seq<Node>)
    | Alt(branches: seq<Node>)
    | Repeat(node: Node, min: nat, max: Option<nat>, greedy: bool)
    | Group(index: Option<nat>, inner: Node)

  predicate IsWord(s: Text, c: char) {
    c == '_' || c in s.alphanumeric
  }

  predicate ItemMatches(s: Text, item: ClassItem, c: char) {
    match item
    case Single(x) => x == c
    case Range(lo, hi) => lo <= c <= hi
    case Digit(positive) => ('0' <= c <= '9') == positive
    case Word(positive) => IsWord(s, c) == positive
    case Space(positive) => IsSpace(c) == positive
  }

  predicate InClass(s: Text, items: seq<ClassItem>, negated: bool, c: char) {
    (exists i :: 0 <= i < |items| && ItemMatches(s, items[i], c)) != negated
  }

  /** Scans a class item by item, stopping at the first hit. */
  method ClassMatches(s: Text, items: seq<ClassItem>, negated: bool, c: char) returns (r: bool)
    ensures r == InClass(s, items, negated, c)
  {
    var hit := false;
    var i := 0;
    while i < |items| && !hit
      invariant 0 <= i <= |items|
      invariant hit == exists j :: 0 <= j < i && ItemMatches(s, items[j], c)
    {
      hit := ItemMatches(s, items[i], c);
      i := i + 1;
    }
    r := hit != negated;
  }

  predicate TakesChar(t: Test) {
    t.Char? || t.AnyChar? || t.Class?
  }

  function Width(t: Test): nat {
    if TakesChar(t) then 1 else 0
  }

  /** Whether `t` succeeds at `pos`. */
  predicate Passes(t: Test, s: Text, pos: nat)
    requires pos <= |s.chars|
  {
    match t
    case Char(c) => pos < |s.chars| && s.chars[pos] == c
    case AnyChar => pos < |s.chars| && s.chars[pos] != '\n'
    case Class(items, negated) => pos < |s.chars| && InClass(s, items, negated, s.chars[pos])
    case Start => pos == 0 || s.chars[pos - 1] == '\n'
    case End => pos == |s.chars| || s.chars[pos] == '\n'
    case WordBoundary(want) =>
      var before := pos > 0 && IsWord(s, s.chars[pos - 1]);
      var after := pos < |s.chars| && IsWord(s, s.chars[pos]);
      (before != after) == want
  }

  /** Patterns the parser produces: no empty alternation, `min <= max`, groups numbered `1..groups`. */
  ghost predicate WellFormed(node: Node, groups: nat)
    decreases node, 0
  {
    match node
    case Empty => true
    case Atom(_) => true
    case Concat(nodes) => AllWellFormed(nodes, groups)
    case Alt(branches) => branches != [] && AllWellFormed(branches, groups)
    case Repeat(n, min, max, _) => WellFormed(n, groups) && (max.Some? ==> min <= max.value)
    case Group(index, n) => WellFormed(n, groups) && (index.Some? ==> 1 <= index.value < groups)
  }

  ghost predicate AllWellFormed(nodes: seq<Node>, groups: nat)
    decreases nodes, 0
  {
    nodes != [] ==> WellFormed(nodes[0], groups) && AllWellFormed(nodes[1..], groups)
  }

  /** Every string the node matches has at least one character. */
  predicate MustConsume(node: Node)
    decreases node, 0
  {
    match node
    case Empty => false
    case Atom(t) => TakesChar(t)
    case Concat(nodes) => SomeMustConsume(nodes)
    case Alt(branches) => AllMustConsume(branches)
    case Repeat(n, min, _, _) => min > 0 && MustConsume(n)
    case Group(_, n) => MustConsume(n)
  }

  predicate SomeMustConsume(nodes: seq<Node>)
    decreases nodes, 0
  {
    nodes != [] && (MustConsume(nodes[0]) || SomeMustConsume(nodes[1..]))
  }

  predicate AllMustConsume(nodes: seq<Node>)
    decreases nodes, 0
  {
    nodes != [] ==> MustConsume(nodes[0]) && AllMustConsume(nodes[1..])
  }

  /** All unbounded repeats have bodies that must consume a character. */
  predicate LoopsConsume(node: Node)
    decreases node, 0
  {
    match node
    case Empty => true
    case Atom(_) => true
    case Concat(nodes) => AllLoopsConsume(nodes)
    case Alt(branches) => AllLoopsConsume(branches)
    case Repeat(n, _, max, _) => LoopsConsume(n) && (max.None? ==> MustConsume(n))
    case Group(_, n) => LoopsConsume(n)
  }

  predicate AllLoopsConsume(nodes: seq<Node>)
    decreases nodes, 0
  {
    nodes != [] ==> LoopsConsume(nodes[0]) && AllLoopsConsume(nodes[1..])
  }

  /** The node can be crossed without taking a character and without ever entering the first
      branch of a split: last alternatives, skipped greedy repeats, entered lazy ones. */
  predicate FallsThrough(node: Node)
    decreases node, 0
  {
    match node
    case Empty => true
    case Atom(t) => !TakesChar(t)
    case Concat(nodes) => AllFallThrough(nodes)
    case Alt(branches) => LastFallsThrough(branches)
    case Repeat(n, min, max, greedy) =>
      && (min > 0 ==> FallsThrough(n))
      && (!greedy ==> max.Some? && (max.value > min ==> FallsThrough(n)))
    case Group(_, n) => FallsThrough(n)
  }

  predicate AllFallThrough(nodes: seq<Node>)
    decreases nodes, 0
  {
    nodes != [] ==> FallsThrough(nodes[0]) && AllFallThrough(nodes[1..])
  }

  predicate LastFallsThrough(nodes: seq<Node>)
    decreases nodes, 0
  {
    nodes != [] && if |nodes| == 1 then FallsThrough(nodes[0]) else LastFallsThrough(nodes[1..])
  }

  /** No lazy unbounded repeat has a body that can be fallen through. */
  predicate Guarded(node: Node)
    decreases node, 0
  {
    match node
    case Empty => true
    case Atom(_) => true
    case Concat(nodes) => AllGuarded(nodes)
    case Alt(branches) => AllGuarded(branches)
    case Repeat(n, _, max, greedy) => Guarded(n) && (max.None? && !greedy ==> !FallsThrough(n))
    case Group(_, n) => Guarded(n)
  }

  predicate AllGuarded(nodes: seq<Node>)
    decreases nodes, 0
  {
    nodes != [] ==> Guarded(nodes[0]) && AllGuarded(nodes[1..])
  }

  /** All lazy unbounded repeats have bodies that must consume a character. */
  predicate LazyLoopsConsume(node: Node)
    decreases node, 0
  {
    match node
    case Empty => true
    case Atom(_) => true
    case Concat(nodes) => AllLazyLoopsConsume(nodes)
    case Alt(branches) => AllLazyLoopsConsume(branches)
    case Repeat(n, _, max, greedy) => LazyLoopsConsume(n) && (max.None? && !greedy ==> MustConsume(n))
    case Group(_, n) => LazyLoopsConsume(n)
  }

  predicate AllLazyLoopsConsume(nodes: seq<Node>)
    decreases nodes, 0
  {
    nodes != [] ==> LazyLoopsConsume(nodes[0]) && AllLazyLoopsConsume(nodes[1..])
  }

  lemma {:induction false} ConsumingLazily(node: Node)
    requires LoopsConsume(node)
    ensures LazyLoopsConsume(node)
    decreases node, 0
  {
    match node
    case Empty =>
    case Atom(_) =>
    case Concat(nodes) => AllConsumingLazily(nodes);
    case Alt(branches) => AllConsumingLazily(branches);
    case Repeat(n, _, _, _) => ConsumingLazily(n);
    case Group(_, n) => ConsumingLazily(n);
  }

  lemma {:induction false} AllConsumingLazily(nodes: seq<Node>)
    requires AllLoopsConsume(nodes)
    ensures AllLazyLoopsConsume(nodes)
    decreases nodes, 0
  {
    if nodes != [] {
      ConsumingLazily(nodes[0]);
      AllConsumingLazily(nodes[1..]);
    }
  }

  /** A pattern whose lazy unbounded repeats consume is guarded, and so is one whose unbounded
      repeats all do. */
  lemma {:induction false} ConsumingIsGuarded(node: Node, groups: nat)
    requires WellFormed(node, groups) && (LoopsConsume(node) || LazyLoopsConsume(node))
    ensures LazyLoopsConsume(node) && Guarded(node)
    decreases node, 1
  {
    if LoopsConsume(node) {
      ConsumingLazily(node);
    }
    LazyConsumingIsGuarded(node, groups);
  }

  lemma {:induction false} LazyConsumingIsGuarded(node: Node, groups: nat)
    requires WellFormed(node, groups) && LazyLoopsConsume(node)
    ensures Guarded(node)
    decreases node, 0
  {
    match node
    case Empty =>
    case Atom(_) =>
    case Concat(nodes) => AllLazyConsumingAreGuarded(nodes, groups);
    case Alt(branches) => AllLazyConsumingAreGuarded(branches, groups);
    case Repeat(n, _, max, greedy) =>
      LazyConsumingIsGuarded(n, groups);
      if max.None? && !greedy {
        ConsumingDoesNotFall(n, groups);
      }
    case Group(_, n) => LazyConsumingIsGuarded(n, groups);
  }

  lemma {:induction false} AllLazyConsumingAreGuarded(nodes: seq<Node>, groups: nat)
    requires AllWellFormed(nodes, groups) && AllLazyLoopsConsume(nodes)
    ensures AllGuarded(nodes)
    decreases nodes, 0
  {
    if nodes != [] {
      LazyConsumingIsGuarded(nodes[0], groups);
      AllLazyConsumingAreGuarded(nodes[1..], groups);
    }
  }

  /** A body that must consume cannot be fallen through. */
  lemma {:induction false} ConsumingDoesNotFall(node: Node, groups: nat)
    requires WellFormed(node, groups) && MustConsume(node)
    ensures !FallsThrough(node)
    decreases node, 0
  {
    match node
    case Empty =>
    case Atom(_) =>
    case Concat(nodes) => SomeConsumesNotAllFall(nodes, groups);
    case Alt(branches) => AllConsumeLastDoesNotFall(branches, groups);
    case Repeat(n, _, _, _) => ConsumingDoesNotFall(n, groups);
    case Group(_, n) => ConsumingDoesNotFall(n, groups);
  }

  lemma {:induction false} SomeConsumesNotAllFall(nodes: seq<Node>, groups: nat)
    requires AllWellFormed(nodes, groups) && SomeMustConsume(nodes)
    ensures !AllFallThrough(nodes)
    decreases nodes, 0
  {
    if MustConsume(nodes[0]) {
      ConsumingDoesNotFall(nodes[0], groups);
    } else {
      SomeConsumesNotAllFall(nodes[1..], groups);
    }
  }

  lemma {:induction false} AllConsumeLastDoesNotFall(nodes: seq<Node>, groups: nat)
    requires AllWellFormed(nodes, groups) && AllMustConsume(nodes)
    ensures !LastFallsThrough(nodes)
    decreases nodes, 0
  {
    if |nodes| == 1 {
      ConsumingDoesNotFall(nodes[0], groups);
    } else if |nodes| > 1 {
      AllConsumeLastDoesNotFall(nodes[1..], groups);
    }
  }

  lemma {:induction false} WellFormedAt(nodes: seq<Node>, groups: nat, i: nat)
    requires AllWellFormed(nodes, groups) && i < |nodes|
    ensures WellFormed(nodes[i], groups)
    decreases i
  {
    if i > 0 {
      WellFormedAt(nodes[1..], groups, i - 1);
    }
  }
}
