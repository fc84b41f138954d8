/** The parser reads exactly the spellings of trees: whatever it accepts spells the tree it gives, and
    every spelling is read as its tree. */
module RegexReading {
  import opened Digits
  import opened Options
  import opened TextAt
  import opened RegexSyntax
  import opened RegexGrammar
  import opened RegexPattern
  import opened RegexSpelling

  // ----- counts -----

  function Sat(n: nat): nat {
    if n > USIZE_MAX then USIZE_MAX else n
  }

  lemma {:induction false} SatStep(n: nat, ch: char)
    requires IsDigit(ch)
    ensures AddDigit(Sat(n), ch) == Sat(n * 10 + DigitOf(ch))
  {
  }

  /** A run of digits is read as its value, or as the greatest 64-bit number where that is less. */
  lemma {:induction false} RunReads(c: string, p: nat, q: nat, n: nat)
    requires DigitRun(c, p, q) && (q == |c| || !IsDigit(c[q]))
    ensures IntFrom(c, p, Sat(n)) == (Sat(Extended(n, c[p..q])), q)
    decreases q - p
  {
    if p < q {
      var t := c[p..q];
      assert IsDigit(t[0]) && t[0] == c[p] && t[1..] == c[p + 1..q];
      assert AllDigits(t[1..]);
      SatStep(n, c[p]);
      RunReads(c, p + 1, q, n * 10 + DigitOf(c[p]));
    }
  }

  lemma {:induction false} NumberReads(c: string, p: nat, q: nat)
    requires DigitRun(c, p, q) && (q == |c| || !IsDigit(c[q]))
    ensures ParseInt(c, p) == (if p == q then None else Some(Sat(NumberAt(c, p, q))), q)
  {
    RunReads(c, p, q, 0);
    ExtendedIsValue(c[p..q]);
  }

  /** Where the digits from `p` on end. */
  lemma {:induction false} RunEnd(c: string, p: nat) returns (q: nat)
    requires p <= |c|
    ensures DigitRun(c, p, q) && (q == |c| || !IsDigit(c[q]))
    decreases |c| - p
  {
    if p < |c| && IsDigit(c[p]) {
      q := RunEnd(c, p + 1);
      assert c[p..q] == [c[p]] + c[p + 1..q];
    } else {
      q := p;
    }
  }

  function SatMax(max: Option<nat>): Option<nat> {
    match max case None => None case Some(n) => Some(Sat(n))
  }

  lemma {:induction false} BraceIsRead(c: string, p: nat, e: nat, min: nat, max: Option<nat>)
    requires BraceAt(c, p, e, min, max)
    ensures Has(c, p, '{') && CountedShape(c, p) == Bounds(Sat(min), SatMax(max), e)
  {
    if exists a: nat :: ExactBrace(c, p, a, e, min, max) {
      var a: nat :| ExactBrace(c, p, a, e, min, max);
      NumberReads(c, p + 1, a);
    } else {
      var a: nat, b: nat :| RangeBrace(c, p, a, b, e, min, max);
      NumberReads(c, p + 1, a);
      NumberReads(c, a + 1, b);
      assert DigitsValue([]) == 0;
      assert a == p + 1 ==> c[p + 1..a] == [];
    }
  }

  lemma {:induction false} BraceWasRead(c: string, p: nat) returns (min: nat, max: Option<nat>)
    requires Has(c, p, '{') && CountedShape(c, p).Bounds?
    ensures BraceAt(c, p, CountedShape(c, p).next, min, max)
  {
    var e := CountedShape(c, p).next;
    var a := RunEnd(c, p + 1);
    NumberReads(c, p + 1, a);
    min := NumberAt(c, p + 1, a);
    if Has(c, a, '}') && p + 1 < a {
      max := Some(min);
      assert ExactBrace(c, p, a, e, min, max);
    } else {
      var b := RunEnd(c, a + 1);
      NumberReads(c, a + 1, b);
      max := if b == a + 1 then None else Some(NumberAt(c, a + 1, b));
      assert RangeBrace(c, p, a, b, e, min, max);
    }
  }

  lemma {:induction false} CountIsRead(c: string, q: nat, e: nat, min: nat, max: Option<nat>)
    requires q <= |c| && CountAt(c, q, e, min, max)
    ensures Quantifier(c, q) == Bounds(min, max, e)
  {
    if BraceAt(c, q, e, min, max) && InLimit(min, max) {
      BraceIsRead(c, q, e, min, max);
    }
  }

  lemma {:induction false} CountWasRead(c: string, q: nat, min: nat, max: Option<nat>, e: nat)
    requires q <= |c| && Quantifier(c, q) == Bounds(min, max, e)
    ensures CountAt(c, q, e, min, max)
  {
    if Has(c, q, '{') {
      var m, n := BraceWasRead(c, q);
      BraceIsRead(c, q, e, m, n);
    }
  }

  lemma {:induction false} NoCountIs(c: string, q: nat)
    requires q <= |c|
    ensures Quantifier(c, q) == NotCounted <==> NoCountAt(c, q)
  {
    forall e: nat, min: nat, max: Option<nat> | BraceAt(c, q, e, min, max)
      ensures Quantifier(c, q) != NotCounted
    {
      BraceIsRead(c, q, e, min, max);
    }
    if Has(c, q, '{') && CountedShape(c, q).Bounds? {
      var min, max := BraceWasRead(c, q);
    }
  }

  // ----- single tests -----

  lemma {:induction false} ClassCharIs(c: string, p: nat, q: nat, ch: char)
    requires p <= |c|
    ensures ClassChar(c, p) == Read(One(ch), q) <==> ClassCharAt(c, p, q, ch)
  {
  }

  lemma {:induction false} ShorthandIs(c: string, p: nat, q: nat, item: ClassItem)
    requires p <= |c| && (item.Digit? || item.Word? || item.Space?)
    ensures ClassChar(c, p) == Read(Item(item), q) <==> ClassItemAt(c, p, q, item)
  {
  }

  lemma {:induction false} ClassItemIsRead(c: string, p: nat, q: nat, item: ClassItem)
    requires p <= |c| && ClassItemAt(c, p, q, item)
    ensures ClassElement(c, p) == ReadItem(item, q)
  {
    match item
    case Single(ch) => ClassCharIs(c, p, q, ch);
    case Range(lo, hi) =>
      var m: nat :| RangeAt(c, p, m, q, lo, hi);
      ClassCharIs(c, p, m, lo);
      ClassCharIs(c, m + 1, q, hi);
    case _ => ShorthandIs(c, p, q, item);
  }

  lemma {:induction false} ClassItemWasRead(c: string, p: nat, q: nat, item: ClassItem)
    requires p <= |c| && ClassElement(c, p) == ReadItem(item, q)
    ensures ClassItemAt(c, p, q, item)
  {
    match ClassChar(c, p)
    case Failed(_) =>
    case Read(Item(i), m) => ShorthandIs(c, p, m, i);
    case Read(One(lo), m) =>
      ClassCharIs(c, p, m, lo);
      if DashAt(c, m) {
        ClassCharIs(c, m + 1, q, item.hi);
        assert RangeAt(c, p, m, q, lo, item.hi);
      }
  }

  lemma {:induction false} ClassItemsAreRead(c: string, p: nat, q: nat, items: seq<ClassItem>, sofar: seq<ClassItem>,
                                             negated: bool, g: nat)
    requires ClassItemsAt(c, p, q, items)
    ensures p <= |c| && ClassItems(c, p, sofar, negated, g) == Got(Atom(Class(sofar + items, negated)), q + 1, g)
    decreases |items|
  {
    if items == [] {
      assert sofar + items == sofar;
    } else {
      var m: nat :| ClassItemAt(c, p, m, items[0]) && ClassItemsAt(c, m, q, items[1..]);
      ClassItemIsRead(c, p, m, items[0]);
      ClassItemsAreRead(c, m, q, items[1..], sofar + [items[0]], negated, g);
      assert sofar + [items[0]] + items[1..] == sofar + items;
    }
  }

  lemma {:induction false} ClassItemsWereRead(c: string, p: nat, sofar: seq<ClassItem>, negated: bool, g: nat, r: Parsed)
    returns (items: seq<ClassItem>)
    requires p <= |c| && r == ClassItems(c, p, sofar, negated, g) && r.Got?
    ensures r.node == Atom(Class(sofar + items, negated)) && r.next > 0 && ClassItemsAt(c, p, r.next - 1, items)
    decreases |c| - p
  {
    if c[p] == ']' {
      items := [];
      assert sofar + items == sofar;
    } else {
      var ReadItem(item, m) := ClassElement(c, p);
      ClassItemWasRead(c, p, m, item);
      var rest := ClassItemsWereRead(c, m, sofar + [item], negated, g, r);
      items := [item] + rest;
      assert items[1..] == rest && sofar + [item] + rest == sofar + items;
    }
  }

  lemma {:induction false} TestIsRead(c: string, p: nat, q: nat, t: Test, g: nat)
    requires TestAt(c, p, q, t)
    ensures p < |c| && c[p] != '|' && c[p] != ')' && ParseAtom(c, p, g) == Got(Atom(t), q, g)
  {
    if t.Class? && Has(c, p, '[') {
      ClassItemsAreRead(c, if t.negated then p + 2 else p + 1, q - 1, t.items, [], t.negated, g);
      assert [] + t.items == t.items;
    }
  }

  lemma {:induction false} TestWasRead(c: string, p: nat, g: nat, r: Parsed)
    requires p < |c| && c[p] !in {'(', '|', ')'} && r == ParseAtom(c, p, g) && r.Got?
    ensures r.node.Atom? && TestAt(c, p, r.next, r.node.test) && r.groups == g
  {
    if c[p] == '[' {
      var negated := Has(c, p + 1, '^');
      var items := ClassItemsWereRead(c, if negated then p + 2 else p + 1, [], negated, g, r);
      assert [] + items == items;
    }
  }

  // ----- every spelling is read -----

  lemma {:induction false} UnitIsRead(c: string, p: nat, q: nat, n: Node, g: nat)
    requires UnitAt(c, p, q, n) && Numbered(n, g)
    ensures p < |c| && q <= |c| && c[p] != '|' && c[p] != ')' && ParseAtom(c, p, g) == Got(n, q, After(n, g))
    decreases n, 0
  {
    match n
    case Atom(t) => TestIsRead(c, p, q, t, g);
    case Group(None, inner) => BodyIsRead(c, p + 3, q - 1, inner, g);
    case Group(Some(_), inner) =>
      BodyIsRead(c, p + 1, q - 1, inner, g + 1);
      NumberedGroupCloses(c, p, inner, g, Got(inner, q - 1, After(inner, g + 1)));
  }

  lemma {:induction false} ItemIsRead(c: string, p: nat, q: nat, n: Node, g: nat)
    requires ItemAt(c, p, q, n) && Numbered(n, g)
    ensures p < |c| && q <= |c| && c[p] != '|' && c[p] != ')' && ParseRepeat(c, p, g) == Got(n, q, After(n, g))
    decreases n, 1
  {
    match n
    case Repeat(unit, min, max, greedy) =>
      var m: nat :| UnitAt(c, p, m, unit) && QuantifierAt(c, m, q, min, max, greedy);
      UnitIsRead(c, p, m, unit, g);
      CountIsRead(c, m, if greedy then q else q - 1, min, max);
    case _ =>
      UnitIsRead(c, p, q, n, g);
      NoCountIs(c, q);
  }

  lemma {:induction false} ItemsAreRead(c: string, p: nat, q: nat, nodes: seq<Node>, sofar: seq<Node>, g: nat)
    requires ItemsAt(c, p, q, nodes) && AllNumbered(nodes, g) && q <= |c| && BranchEnds(c, q)
    ensures p <= |c| && ParseNodes(c, p, g, sofar) == Got(Joined(sofar + nodes), q, AfterAll(nodes, g))
    decreases nodes, 2
  {
    if nodes == [] {
      assert sofar + nodes == sofar;
    } else {
      var m: nat :| ItemAt(c, p, m, nodes[0]) && ItemsAt(c, m, q, nodes[1..]);
      ItemIsRead(c, p, m, nodes[0], g);
      NodesGoOn(c, p, m, nodes[0], sofar, g, After(nodes[0], g));
      ItemsAreRead(c, m, q, nodes[1..], sofar + [nodes[0]], After(nodes[0], g));
      Shift(sofar, nodes);
    }
  }

  lemma {:induction false} NodesGoOn(c: string, p: nat, m: nat, n: Node, sofar: seq<Node>, g: nat, after: nat)
    requires p < |c| && c[p] != '|' && c[p] != ')' && ParseRepeat(c, p, g) == Got(n, m, after)
    ensures m <= |c| && ParseNodes(c, p, g, sofar) == ParseNodes(c, m, after, sofar + [n])
  {
  }

  lemma {:induction false} BranchIsRead(c: string, p: nat, q: nat, n: Node, g: nat)
    requires BranchAt(c, p, q, n) && Numbered(n, g) && q <= |c| && BranchEnds(c, q)
    ensures p <= |c| && ParseNodes(c, p, g, []) == Got(n, q, After(n, g))
    decreases n, 2
  {
    match n
    case Empty =>
    case Concat(nodes) =>
      ItemsAreRead(c, p, q, nodes, [], g);
      assert [] + nodes == nodes;
    case Alt(_) =>
    case _ =>
      ItemIsRead(c, p, q, n, g);
      NodesGoOn(c, p, q, n, [], g, After(n, g));
      assert [] + [n] == [n];
  }

  lemma {:induction false} BranchesAreRead(c: string, p: nat, q: nat, branches: seq<Node>, sofar: seq<Node>, g: nat)
    requires BranchesAt(c, p, q, branches) && AllNumbered(branches, g) && q <= |c| && BodyEnds(c, q)
    ensures p <= |c| && ParseBranches(c, p, g, sofar) == Got(Chosen(sofar + branches), q, AfterAll(branches, g))
    decreases branches, 3
  {
    var first := branches[0];
    if |branches| == 1 {
      assert branches == [first];
      BranchIsRead(c, p, q, first, g);
      BranchesEnd(c, p, q, first, sofar, g, After(first, g));
      OneNode(branches, g);
    } else {
      var m: nat :| BranchAt(c, p, m, first) && Has(c, m, '|') && BranchesAt(c, m + 1, q, branches[1..]);
      BranchIsRead(c, p, m, first, g);
      BranchesStep(c, p, m, first, sofar, g, After(first, g));
      BranchesAreRead(c, m + 1, q, branches[1..], sofar + [first], After(first, g));
      Shift(sofar, branches);
    }
  }

  lemma {:induction false} BodyIsRead(c: string, p: nat, q: nat, n: Node, g: nat)
    requires BodyAt(c, p, q, n) && Numbered(n, g) && q <= |c| && BodyEnds(c, q)
    ensures p <= |c| && ParseAlternation(c, p, g) == Got(n, q, After(n, g))
    decreases n, 3
  {
    match n
    case Alt(branches) =>
      BranchesAreRead(c, p, q, branches, [], g);
      assert [] + branches == branches;
    case _ =>
      BranchIsRead(c, p, q, n, g);
      BranchesEnd(c, p, q, n, [], g, After(n, g));
      assert [] + [n] == [n];
  }

  // ----- whatever is read is a spelling -----

  lemma {:induction false} UnitWasRead(c: string, p: nat, g: nat, r: Parsed)
    requires p < |c| && c[p] != '|' && c[p] != ')' && r == ParseAtom(c, p, g) && r.Got?
    ensures UnitAt(c, p, r.next, r.node)
    decreases |c| - p, 0
  {
    if c[p] == '(' {
      GroupWasRead(c, p, g, r);
    } else {
      TestWasRead(c, p, g, r);
    }
  }

  lemma {:induction false} GroupWasRead(c: string, p: nat, g: nat, r: Parsed)
    requires Has(c, p, '(') && r == ParseGroup(c, p, g) && r.Got?
    ensures UnitAt(c, p, r.next, r.node)
    decreases |c| - p, 0, 0
  {
    if Has(c, p + 1, '?') {
      BodyWasRead(c, p + 3, g, ParseAlternation(c, p + 3, g));
    } else {
      BodyWasRead(c, p + 1, g + 1, ParseAlternation(c, p + 1, g + 1));
    }
  }

  lemma {:induction false} ItemWasRead(c: string, p: nat, g: nat, r: Parsed)
    requires p < |c| && c[p] != '|' && c[p] != ')' && r == ParseRepeat(c, p, g) && r.Got?
    ensures ItemAt(c, p, r.next, r.node) && (r.node.Atom? || r.node.Group? || r.node.Repeat?)
    decreases |c| - p, 1
  {
    var unit := ParseAtom(c, p, g);
    UnitWasRead(c, p, g, unit);
    NoCountIs(c, unit.next);
    match Quantifier(c, unit.next)
    case NotCounted =>
    case Refused(_) =>
    case Bounds(min, max, e) =>
      CountWasRead(c, unit.next, min, max, e);
      assert QuantifierAt(c, unit.next, r.next, min, max, r.node.greedy);
  }

  lemma {:induction false} NodesWereRead(c: string, p: nat, sofar: seq<Node>, g: nat, r: Parsed) returns (nodes: seq<Node>)
    requires p <= |c| && r == ParseNodes(c, p, g, sofar) && r.Got?
    ensures r.node == Joined(sofar + nodes) && ItemsAt(c, p, r.next, nodes) && AllKinds(nodes) && BranchEnds(c, r.next)
    decreases |c| - p, 2
  {
    if p == |c| || c[p] == '|' || c[p] == ')' {
      nodes := [];
      assert sofar + nodes == sofar;
    } else {
      var item := ParseRepeat(c, p, g);
      ItemWasRead(c, p, g, item);
      var rest := NodesWereRead(c, item.next, sofar + [item.node], item.groups, r);
      nodes := [item.node] + rest;
      assert nodes[1..] == rest && sofar + [item.node] + rest == sofar + nodes;
    }
  }

  predicate AllKinds(nodes: seq<Node>) {
    nodes != [] ==> (nodes[0].Atom? || nodes[0].Group? || nodes[0].Repeat?) && AllKinds(nodes[1..])
  }

  lemma {:induction false} BranchWasRead(c: string, p: nat, g: nat, r: Parsed)
    requires p <= |c| && r == ParseNodes(c, p, g, []) && r.Got?
    ensures BranchAt(c, p, r.next, r.node) && BranchEnds(c, r.next)
    decreases |c| - p, 3
  {
    var nodes := NodesWereRead(c, p, [], g, r);
    assert [] + nodes == nodes;
    if |nodes| == 1 {
      var m: nat :| ItemAt(c, p, m, nodes[0]) && ItemsAt(c, m, r.next, nodes[1..]);
    }
  }

  lemma {:induction false} BranchesWereRead(c: string, p: nat, sofar: seq<Node>, g: nat, r: Parsed) returns (branches: seq<Node>)
    requires p <= |c| && r == ParseBranches(c, p, g, sofar) && r.Got?
    ensures r.node == Chosen(sofar + branches) && BranchesAt(c, p, r.next, branches)
    decreases |c| - p, 4
  {
    var first := ParseNodes(c, p, g, []);
    BranchWasRead(c, p, g, first);
    if Has(c, first.next, '|') {
      var rest := BranchesWereRead(c, first.next + 1, sofar + [first.node], first.groups, r);
      branches := [first.node] + rest;
      assert branches[1..] == rest && sofar + [first.node] + rest == sofar + branches;
    } else {
      branches := [first.node];
    }
  }

  lemma {:induction false} BodyWasRead(c: string, p: nat, g: nat, r: Parsed)
    requires p <= |c| && r == ParseAlternation(c, p, g) && r.Got?
    ensures BodyAt(c, p, r.next, r.node)
    decreases |c| - p, 5
  {
    var branches := BranchesWereRead(c, p, [], g, r);
    assert [] + branches == branches;
  }

  // ----- whole patterns -----

  /** A pattern parses to a tree exactly when it spells that tree, from its first character to its last,
      and the groups of the tree are numbered in order. */
  lemma {:induction false} ParsesIffSpells(c: string, p: Pattern)
    ensures ParsePattern(c) == Ok(p) <==> BodyAt(c, 0, |c|, p.ast) && Numbered(p.ast, 1) && p.groupCount == After(p.ast, 1)
  {
    if ParsePattern(c) == Ok(p) {
      ParsedIsWellFormed(c);
      BodyWasRead(c, 0, 1, ParseAlternation(c, 0, 1));
    }
    if BodyAt(c, 0, |c|, p.ast) && Numbered(p.ast, 1) {
      BodyIsRead(c, 0, |c|, p.ast, 1);
    }
  }

  // ----- suffixes and counts -----

  /** The texts of a count: the three suffixes, and braces with one bound or two. */
  ghost predicate SpellsCount(t: string, min: nat, max: Option<nat>) {
    || (t == "*" && min == 0 && max == None)
    || (t == "+" && min == 1 && max == None)
    || (t == "?" && min == 0 && max == Some(1))
    || (t == "{" + NatText(min) + "}" && max == Some(min))
    || (t == "{" + NatText(min) + ",}" && max == None)
    || (max.Some? && t == "{," + NatText(max.value) + "}" && min == 0)
    || (max.Some? && t == "{" + NatText(min) + "," + NatText(max.value) + "}")
  }

  lemma {:induction false} DigitsAt(c: string, before: string, n: nat, after: string)
    requires c == before + NatText(n) + after
    ensures var p := |before|; var q := p + |NatText(n)|;
            p < q && DigitRun(c, p, q) && NumberAt(c, p, q) == n
  {
    var p := |before|;
    assert c[p..p + |NatText(n)|] == NatText(n);
    NatTextReads(n);
  }

  lemma {:induction false} ExactSpelled(c: string, u: string, n: nat, mark: string)
    requires c == u + ("{" + NatText(n) + "}") + mark
    ensures BraceAt(c, |u|, |u| + 2 + |NatText(n)|, n, Some(n))
  {
    var a := |u| + 1 + |NatText(n)|;
    assert c == (u + "{") + NatText(n) + ("}" + mark);
    DigitsAt(c, u + "{", n, "}" + mark);
    assert ExactBrace(c, |u|, a, a + 1, n, Some(n));
  }

  lemma {:induction false} AtLeastSpelled(c: string, u: string, n: nat, mark: string)
    requires c == u + ("{" + NatText(n) + ",}") + mark
    ensures BraceAt(c, |u|, |u| + 3 + |NatText(n)|, n, None)
  {
    var a := |u| + 1 + |NatText(n)|;
    assert c == (u + "{") + NatText(n) + (",}" + mark);
    DigitsAt(c, u + "{", n, ",}" + mark);
    assert c[a + 1..a + 1] == [];
    assert RangeBrace(c, |u|, a, a + 1, a + 2, n, None);
  }

  lemma {:induction false} AtMostSpelled(c: string, u: string, n: nat, mark: string)
    requires c == u + ("{," + NatText(n) + "}") + mark
    ensures BraceAt(c, |u|, |u| + 3 + |NatText(n)|, 0, Some(n))
  {
    var p, b := |u|, |u| + 2 + |NatText(n)|;
    assert c == (u + "{,") + NatText(n) + ("}" + mark);
    DigitsAt(c, u + "{,", n, "}" + mark);
    assert c[p + 1..p + 1] == [] && DigitsValue([]) == 0;
    assert RangeBrace(c, p, p + 1, b, b + 1, 0, Some(n));
  }

  lemma {:induction false} BetweenSpelled(c: string, u: string, n: nat, m: nat, mark: string)
    requires c == u + ("{" + NatText(n) + "," + NatText(m) + "}") + mark
    ensures BraceAt(c, |u|, |u| + 3 + |NatText(n)| + |NatText(m)|, n, Some(m))
  {
    BoundsSpelled(c, u, NatText(n), NatText(m), mark);
    NatTextReads(n);
    NatTextReads(m);
    var a := |u| + 1 + |NatText(n)|;
    assert RangeBrace(c, |u|, a, a + 1 + |NatText(m)|, a + 2 + |NatText(m)|, n, Some(m));
  }

  lemma {:induction false} BoundsSpelled(c: string, u: string, low: string, high: string, mark: string)
    requires c == u + ("{" + low + "," + high + "}") + mark
    ensures var p, a, b := |u|, |u| + 1 + |low|, |u| + 2 + |low| + |high|;
            b < |c| && c[p] == '{' && c[p + 1..a] == low && c[a] == ',' && c[a + 1..b] == high && c[b] == '}'
  {
    PartsStand(c, u, "{", low, "," + (high + ("}" + mark)));
    PartsStand(c, u + "{" + low, ",", high, "}" + mark);
  }

  /** In a text of four parts, where the second and the third stand. */
  lemma {:induction false} PartsStand(c: string, before: string, one: string, part: string, rest: string)
    requires |one| == 1 && c == before + one + part + rest
    ensures c[|before|] == one[0] && c[|before| + 1..|before| + 1 + |part|] == part
    ensures c[|before| + 1 + |part|..] == rest
  {
  }

  lemma {:induction false} BraceSpelled(c: string, u: string, t: string, mark: string, min: nat, max: Option<nat>)
    requires c == u + t + mark && SpellsCount(t, min, max) && t[0] == '{'
    ensures BraceAt(c, |u|, |u| + |t|, min, max)
  {
    if t == "{" + NatText(min) + "}" && max == Some(min) {
      ExactSpelled(c, u, min, mark);
    } else if t == "{" + NatText(min) + ",}" && max == None {
      AtLeastSpelled(c, u, min, mark);
    } else if t == "{," + NatText(max.value) + "}" && min == 0 {
      AtMostSpelled(c, u, max.value, mark);
    } else {
      BetweenSpelled(c, u, min, max.value, mark);
    }
  }

  /** A unit with any text of a count after it, and perhaps the lazy mark, is that unit repeated. */
  lemma {:induction false} QuantifiedParses(n: Node, t: string, min: nat, max: Option<nat>, greedy: bool)
    requires IsUnit(n) && Numbered(n, 1) && SpellsCount(t, min, max) && InLimit(min, max)
    ensures ParsePattern(Show(n) + t + if greedy then "" else "?") == Ok(Pattern(Repeat(n, min, max, greedy), After(n, 1)))
  {
    var u, mark := Show(n), if greedy then "" else "?";
    var c := u + t + mark;
    UnitSpelled(c, n, |u|);
    QuantifierSpelled(c, u, t, min, max, greedy);
    RepeatSpelled(c, |u|, n, min, max, greedy);
  }

  lemma {:induction false} RepeatSpelled(c: string, m: nat, n: Node, min: nat, max: Option<nat>, greedy: bool)
    requires IsUnit(n) && Numbered(n, 1) && UnitAt(c, 0, m, n) && QuantifierAt(c, m, |c|, min, max, greedy)
    ensures ParsePattern(c) == Ok(Pattern(Repeat(n, min, max, greedy), After(n, 1)))
  {
    var item := Repeat(n, min, max, greedy);
    assert ItemAt(c, 0, |c|, item);
    assert BranchAt(c, 0, |c|, item);
    assert BodyAt(c, 0, |c|, item) && Numbered(item, 1) && After(item, 1) == After(n, 1);
    ParsesIffSpells(c, Pattern(item, After(n, 1)));
  }

  lemma {:induction false} QuantifierSpelled(c: string, u: string, t: string, min: nat, max: Option<nat>, greedy: bool)
    requires c == u + t + (if greedy then "" else "?") && SpellsCount(t, min, max) && InLimit(min, max)
    ensures QuantifierAt(c, |u|, |c|, min, max, greedy)
  {
    var m, e := |u|, |u| + |t|;
    assert c[m] == t[0] && (!greedy ==> c[e] == '?');
    if t[0] == '{' {
      BraceSpelled(c, u, t, if greedy then "" else "?", min, max);
    } else {
      assert t == [t[0]] && e == m + 1;
    }
    assert CountAt(c, m, e, min, max);
    assert greedy ==> e == |c|;
    assert !greedy ==> e == |c| - 1;
  }

  lemma {:induction false} UnitSpelled(c: string, n: Node, m: nat)
    requires IsUnit(n) && Numbered(n, 1) && m == |Show(n)| <= |c| && c[..m] == Show(n)
    ensures UnitAt(c, 0, m, n)
  {
    assert c[0..m] == Show(n);
    AtSlice(c, 0, Show(n));
    UnitReads(c, 0, n, 1);
    UnitKinds(n, c);
    UnitWasRead(c, 0, 1, Got(n, m, After(n, 1)));
  }

  lemma {:induction false} UnitKinds(n: Node, c: string)
    requires IsUnit(n) && At(c, 0, Show(n))
    ensures 0 < |c| && c[0] != '|' && c[0] != ')'
  {
    ItemStarts(c, 0, n);
  }

  /** Each suffix means the count it is short for, and a missing bound the one it stands for. */
  lemma {:induction false} SuffixesAgree(n: Node, k: nat, greedy: bool)
    requires IsUnit(n) && Numbered(n, 1) && k <= MAX_REPEAT
    ensures var u, mark := Show(n), if greedy then "" else "?";
            && ParsePattern(u + "+" + mark) == ParsePattern(u + "{1,}" + mark)
            && ParsePattern(u + "*" + mark) == ParsePattern(u + "{0,}" + mark)
            && ParsePattern(u + "?" + mark) == ParsePattern(u + "{0,1}" + mark)
            && ParsePattern(u + ("{" + NatText(k) + "}") + mark) == ParsePattern(u + ("{" + NatText(k) + "," + NatText(k) + "}") + mark)
            && ParsePattern(u + ("{," + NatText(k) + "}") + mark) == ParsePattern(u + ("{0," + NatText(k) + "}") + mark)
            && ParsePattern(u + "+" + mark) == Ok(Pattern(Repeat(n, 1, None, greedy), After(n, 1)))
            && ParsePattern(u + "*" + mark) == Ok(Pattern(Repeat(n, 0, None, greedy), After(n, 1)))
            && ParsePattern(u + "?" + mark) == Ok(Pattern(Repeat(n, 0, Some(1), greedy), After(n, 1)))
  {
    assert NatText(0) == "0" && NatText(1) == "1";
    assert "{" + NatText(1) + ",}" == "{1,}" && "{" + NatText(0) + ",}" == "{0,}";
    assert "{" + NatText(0) + "," + NatText(1) + "}" == "{0,1}";
    assert "{" + NatText(0) + "," + NatText(k) + "}" == "{0," + NatText(k) + "}";
    QuantifiedParses(n, "+", 1, None, greedy);
    QuantifiedParses(n, "{1,}", 1, None, greedy);
    QuantifiedParses(n, "*", 0, None, greedy);
    QuantifiedParses(n, "{0,}", 0, None, greedy);
    QuantifiedParses(n, "?", 0, Some(1), greedy);
    QuantifiedParses(n, "{0,1}", 0, Some(1), greedy);
    QuantifiedParses(n, "{" + NatText(k) + "}", k, Some(k), greedy);
    QuantifiedParses(n, "{" + NatText(k) + "," + NatText(k) + "}", k, Some(k), greedy);
    QuantifiedParses(n, "{," + NatText(k) + "}", 0, Some(k), greedy);
    QuantifiedParses(n, "{0," + NatText(k) + "}", 0, Some(k), greedy);
  }
}
