/** Which trees the pattern parser produces, and a spelling for each of them that it reads back. */
module RegexPattern {
  import opened Digits
  import opened Options
  import opened TextAt
  import opened RegexSyntax
  import opened RegexGrammar

  // ----- the parser's trees -----

  /** A single test, or a group around a whole alternation. */
  predicate IsUnit(node: Node)
    decreases node, 0
  {
    node.Atom? || (node.Group? && IsBody(node.inner))
  }

  /** A unit, repeated at most once and no more often than allowed. */
  predicate IsItem(node: Node)
    decreases node, 1
  {
    if node.Repeat?
    then IsUnit(node.node) && node.min <= MAX_REPEAT && (node.max.Some? ==> node.min <= node.max.value <= MAX_REPEAT)
    else IsUnit(node)
  }

  predicate AllItems(nodes: seq<Node>)
    decreases nodes, 0
  {
    nodes != [] ==> IsItem(nodes[0]) && AllItems(nodes[1..])
  }

  /** Nothing, one item, or several in a row. */
  predicate IsBranch(node: Node)
    decreases node, 2
  {
    if node.Concat? then |node.nodes| >= 2 && AllItems(node.nodes) else node.Empty? || IsItem(node)
  }

  predicate AllBranches(branches: seq<Node>)
    decreases branches, 0
  {
    branches != [] ==> IsBranch(branches[0]) && AllBranches(branches[1..])
  }

  /** One branch or a choice of several. */
  predicate IsBody(node: Node)
    decreases node, 3
  {
    if node.Alt? then |node.branches| >= 2 && AllBranches(node.branches) else IsBranch(node)
  }

  // ----- the numbering of groups -----

  /** How far the group count has come after this node. */
  function After(node: Node, g: nat): (r: nat)
    ensures r >= g
    decreases node, 0
  {
    match node
    case Concat(nodes) => AfterAll(nodes, g)
    case Alt(branches) => AfterAll(branches, g)
    case Repeat(n, _, _, _) => After(n, g)
    case Group(index, n) => After(n, if index.Some? then g + 1 else g)
    case _ => g
  }

  function AfterAll(nodes: seq<Node>, g: nat): (r: nat)
    ensures r >= g
    decreases nodes, 0
  {
    if nodes == [] then g else AfterAll(nodes[1..], After(nodes[0], g))
  }

  /** Capturing groups carry the numbers from `g` on, in the order of their opening parentheses. */
  predicate Numbered(node: Node, g: nat)
    decreases node, 0
  {
    match node
    case Concat(nodes) => AllNumbered(nodes, g)
    case Alt(branches) => AllNumbered(branches, g)
    case Repeat(n, _, _, _) => Numbered(n, g)
    case Group(index, n) => if index.Some? then index.value == g && Numbered(n, g + 1) else Numbered(n, g)
    case _ => true
  }

  predicate AllNumbered(nodes: seq<Node>, g: nat)
    decreases nodes, 0
  {
    nodes != [] ==> Numbered(nodes[0], g) && AllNumbered(nodes[1..], After(nodes[0], g))
  }

  lemma {:induction false} AppendAfter(nodes: seq<Node>, n: Node, g: nat)
    ensures AfterAll(nodes + [n], g) == After(n, AfterAll(nodes, g))
    ensures AllNumbered(nodes + [n], g) <==> AllNumbered(nodes, g) && Numbered(n, AfterAll(nodes, g))
    decreases |nodes|
  {
    var all := nodes + [n];
    if nodes == [] {
      assert all == [n] && all[1..] == [];
    } else {
      assert all[0] == nodes[0] && all[1..] == nodes[1..] + [n];
      AppendAfter(nodes[1..], n, After(nodes[0], g));
    }
  }

  lemma {:induction false} AppendItem(nodes: seq<Node>, n: Node)
    requires AllItems(nodes) && IsItem(n)
    ensures AllItems(nodes + [n])
    decreases |nodes|
  {
    var all := nodes + [n];
    if nodes == [] {
      assert all == [n] && all[1..] == [];
    } else {
      assert all[0] == nodes[0] && all[1..] == nodes[1..] + [n];
      AppendItem(nodes[1..], n);
    }
  }

  lemma {:induction false} AppendBranch(nodes: seq<Node>, n: Node)
    requires AllBranches(nodes) && IsBranch(n)
    ensures AllBranches(nodes + [n])
    decreases |nodes|
  {
    var all := nodes + [n];
    if nodes == [] {
      assert all == [n] && all[1..] == [];
    } else {
      assert all[0] == nodes[0] && all[1..] == nodes[1..] + [n];
      AppendBranch(nodes[1..], n);
    }
  }

  /** A numbered tree of the parser is well formed: its save slots are within bounds. */
  lemma {:induction false} NumberedIsWellFormed(node: Node, g: nat, groups: nat)
    requires Numbered(node, g) && g >= 1 && After(node, g) <= groups
    requires IsBody(node)
    ensures WellFormed(node, groups)
    decreases node, 3
  {
    if node.Alt? {
      BranchesWellFormed(node.branches, g, groups);
    } else {
      BranchWellFormed(node, g, groups);
    }
  }

  lemma {:induction false} BranchWellFormed(node: Node, g: nat, groups: nat)
    requires Numbered(node, g) && g >= 1 && After(node, g) <= groups && IsBranch(node)
    ensures WellFormed(node, groups)
    decreases node, 2
  {
    if node.Concat? {
      ItemsWellFormed(node.nodes, g, groups);
    } else if !node.Empty? {
      ItemWellFormed(node, g, groups);
    }
  }

  lemma {:induction false} ItemWellFormed(node: Node, g: nat, groups: nat)
    requires Numbered(node, g) && g >= 1 && After(node, g) <= groups && IsItem(node)
    ensures WellFormed(node, groups)
    decreases node, 1
  {
    match node
    case Repeat(n, _, _, _) => ItemWellFormed(n, g, groups);
    case Group(None, n) => NumberedIsWellFormed(n, g, groups);
    case Group(Some(_), n) => NumberedIsWellFormed(n, g + 1, groups);
    case _ =>
  }

  lemma {:induction false} AfterAllGrows(nodes: seq<Node>, g: nat)
    requires nodes != []
    ensures After(nodes[0], g) <= AfterAll(nodes, g)
  {
  }

  lemma {:induction false} ItemsWellFormed(nodes: seq<Node>, g: nat, groups: nat)
    requires AllNumbered(nodes, g) && g >= 1 && AfterAll(nodes, g) <= groups && AllItems(nodes)
    ensures AllWellFormed(nodes, groups)
    decreases nodes, 0
  {
    if nodes != [] {
      AfterAllGrows(nodes, g);
      ItemWellFormed(nodes[0], g, groups);
      ItemsWellFormed(nodes[1..], After(nodes[0], g), groups);
    }
  }

  lemma {:induction false} BranchesWellFormed(nodes: seq<Node>, g: nat, groups: nat)
    requires AllNumbered(nodes, g) && g >= 1 && AfterAll(nodes, g) <= groups && AllBranches(nodes)
    ensures AllWellFormed(nodes, groups)
    decreases nodes, 0
  {
    if nodes != [] {
      AfterAllGrows(nodes, g);
      BranchWellFormed(nodes[0], g, groups);
      BranchesWellFormed(nodes[1..], After(nodes[0], g), groups);
    }
  }

  // ----- whatever is parsed is such a tree -----

  ghost predicate Fits(r: Parsed, g: nat) {
    r.Got? ==> Numbered(r.node, g) && r.groups == After(r.node, g)
  }

  lemma {:induction false} AtomFits(c: string, p: nat, g: nat)
    requires p < |c|
    ensures Fits(ParseAtom(c, p, g), g) && (ParseAtom(c, p, g).Got? ==> IsUnit(ParseAtom(c, p, g).node))
    decreases |c| - p, 0
  {
    if c[p] == '(' {
      GroupFits(c, p, g);
    }
  }

  lemma {:induction false} GroupFits(c: string, p: nat, g: nat)
    requires Has(c, p, '(')
    ensures Fits(ParseGroup(c, p, g), g) && (ParseGroup(c, p, g).Got? ==> IsUnit(ParseGroup(c, p, g).node))
    decreases |c| - p, 0, 0
  {
    if Has(c, p + 1, '?') {
      if Has(c, p + 2, ':') {
        AlternationFits(c, p + 3, g);
      }
    } else {
      AlternationFits(c, p + 1, g + 1);
    }
  }

  lemma {:induction false} RepeatFits(c: string, p: nat, g: nat)
    requires p < |c|
    ensures Fits(ParseRepeat(c, p, g), g) && (ParseRepeat(c, p, g).Got? ==> IsItem(ParseRepeat(c, p, g).node))
    decreases |c| - p, 1
  {
    AtomFits(c, p, g);
    var atom := ParseAtom(c, p, g);
    if atom.Got? {
      QuantifierFits(c, atom.next);
    }
  }

  lemma {:induction false} QuantifierFits(c: string, q: nat)
    requires q <= |c|
    ensures var b := Quantifier(c, q);
            b.Bounds? ==> b.min <= MAX_REPEAT && (b.max.Some? ==> b.min <= b.max.value <= MAX_REPEAT)
  {
  }

  lemma {:induction false} NodesFit(c: string, p: nat, start: nat, g: nat, sofar: seq<Node>)
    requires p <= |c| && AllItems(sofar) && AllNumbered(sofar, start) && g == AfterAll(sofar, start)
    ensures Fits(ParseNodes(c, p, g, sofar), start) && (ParseNodes(c, p, g, sofar).Got? ==> IsBranch(ParseNodes(c, p, g, sofar).node))
    decreases |c| - p, 2
  {
    if p == |c| || c[p] == '|' || c[p] == ')' {
      JoinedFits(sofar, start);
    } else {
      RepeatFits(c, p, g);
      var r := ParseRepeat(c, p, g);
      if r.Got? {
        AppendItem(sofar, r.node);
        AppendAfter(sofar, r.node, start);
        NodesFit(c, r.next, start, r.groups, sofar + [r.node]);
      }
    }
  }

  lemma {:induction false} ItemKinds(node: Node)
    requires IsItem(node)
    ensures node.Atom? || node.Group? || node.Repeat?
  {
  }

  lemma {:induction false} OneNode(nodes: seq<Node>, g: nat)
    requires |nodes| == 1
    ensures AfterAll(nodes, g) == After(nodes[0], g) && (AllNumbered(nodes, g) <==> Numbered(nodes[0], g))
  {
    assert nodes[1..] == [];
  }

  lemma {:induction false} JoinedFits(nodes: seq<Node>, g: nat)
    requires AllItems(nodes) && AllNumbered(nodes, g)
    ensures IsBranch(Joined(nodes)) && Numbered(Joined(nodes), g) && After(Joined(nodes), g) == AfterAll(nodes, g)
  {
    if |nodes| == 1 {
      ItemKinds(nodes[0]);
      OneNode(nodes, g);
    }
  }

  lemma {:induction false} BranchesFit(c: string, p: nat, start: nat, g: nat, sofar: seq<Node>)
    requires p <= |c| && AllBranches(sofar) && AllNumbered(sofar, start) && g == AfterAll(sofar, start)
    ensures Fits(ParseBranches(c, p, g, sofar), start)
    ensures ParseBranches(c, p, g, sofar).Got? ==> IsBody(ParseBranches(c, p, g, sofar).node)
    decreases |c| - p, 3
  {
    NodesFit(c, p, g, g, []);
    var r := ParseNodes(c, p, g, []);
    if r.Got? {
      AppendBranch(sofar, r.node);
      AppendAfter(sofar, r.node, start);
      if Has(c, r.next, '|') {
        BranchesFit(c, r.next + 1, start, r.groups, sofar + [r.node]);
      } else {
        ChosenFits(sofar + [r.node], start);
      }
    }
  }

  lemma {:induction false} ChosenFits(branches: seq<Node>, g: nat)
    requires branches != [] && AllBranches(branches) && AllNumbered(branches, g)
    ensures IsBody(Chosen(branches)) && Numbered(Chosen(branches), g) && After(Chosen(branches), g) == AfterAll(branches, g)
  {
    if |branches| == 1 {
      assert IsBranch(branches[0]);
      if !branches[0].Concat? && !branches[0].Empty? {
        ItemKinds(branches[0]);
      }
      OneNode(branches, g);
    }
  }

  lemma {:induction false} AlternationFits(c: string, p: nat, g: nat)
    requires p <= |c|
    ensures Fits(ParseAlternation(c, p, g), g) && (ParseAlternation(c, p, g).Got? ==> IsBody(ParseAlternation(c, p, g).node))
    decreases |c| - p, 4
  {
    BranchesFit(c, p, g, g, []);
  }

  /** A parsed pattern is one of these trees, its groups are numbered from 1 in the order of their
      parentheses, the count is one more than the last number, and it is well formed. */
  lemma {:induction false} ParsedIsWellFormed(c: string)
    requires ParsePattern(c).Ok?
    ensures var p := ParsePattern(c).value;
            && IsBody(p.ast) && Numbered(p.ast, 1) && p.groupCount == After(p.ast, 1) && p.groupCount >= 1
            && WellFormed(p.ast, p.groupCount)
  {
    AlternationFits(c, 0, 1);
    NumberedIsWellFormed(ParsePattern(c).value.ast, 1, ParsePattern(c).value.groupCount);
  }

  // ----- spelling -----

  /** Characters with a meaning of their own are escaped. */
  function Literal(ch: char): string {
    if ch in {'(', ')', '[', '.', '^', '$', '\\', '*', '+', '?', '|', '{'} then ['\\', ch] else [ch]
  }

  function ClassLiteral(ch: char): string {
    if ch in {'\\', ']', '-', '^'} then ['\\', ch] else [ch]
  }

  function ShowItem(item: ClassItem): string {
    match item
    case Single(ch) => ClassLiteral(ch)
    case Range(lo, hi) => ClassLiteral(lo) + "-" + ClassLiteral(hi)
    case Digit(positive) => if positive then "\\d" else "\\D"
    case Word(positive) => if positive then "\\w" else "\\W"
    case Space(positive) => if positive then "\\s" else "\\S"
  }

  function ShowItems(items: seq<ClassItem>): string {
    if items == [] then "" else ShowItem(items[0]) + ShowItems(items[1..])
  }

  function ShowTest(t: Test): string {
    match t
    case Char(ch) => Literal(ch)
    case AnyChar => "."
    case Class(items, negated) => "[" + (if negated then "^" else "") + (ShowItems(items) + "]")
    case Start => "^"
    case End => "$"
    case WordBoundary(want) => if want then "\\b" else "\\B"
  }

  function ShowQuantifier(min: nat, max: Option<nat>, greedy: bool): string {
    "{" + (NatText(min) + ("," + ((if max.Some? then NatText(max.value) else "") + ("}" + if greedy then "" else "?"))))
  }

  function Show(node: Node): string
    decreases node, 0
  {
    match node
    case Empty => ""
    case Atom(t) => ShowTest(t)
    case Concat(nodes) => ShowAll(nodes)
    case Alt(branches) => ShowBranches(branches)
    case Repeat(n, min, max, greedy) => Show(n) + ShowQuantifier(min, max, greedy)
    case Group(index, n) => (if index.Some? then "(" else "(?:") + (Show(n) + ")")
  }

  function ShowAll(nodes: seq<Node>): string
    decreases nodes, 0
  {
    if nodes == [] then "" else Show(nodes[0]) + ShowAll(nodes[1..])
  }

  function ShowBranches(branches: seq<Node>): string
    decreases branches, 0
  {
    if branches == [] then ""
    else if |branches| == 1 then Show(branches[0])
    else Show(branches[0]) + ("|" + ShowBranches(branches[1..]))
  }

  // ----- tests read back -----

  lemma {:induction false} AtTwo(c: string, p: nat, a: char, b: char)
    requires At(c, p, [a, b])
    ensures Has(c, p, a) && Has(c, p + 1, b)
  {
    assert [a, b][1..] == [b];
  }

  lemma {:induction false} LiteralReads(c: string, p: nat, ch: char, g: nat)
    requires At(c, p, Literal(ch))
    ensures p < |c| && ParseAtom(c, p, g) == Got(Atom(Char(ch)), p + |Literal(ch)|, g)
  {
    if |Literal(ch)| == 2 {
      AtTwo(c, p, '\\', ch);
    }
  }

  lemma {:induction false} ClassLiteralReads(c: string, p: nat, ch: char)
    requires At(c, p, ClassLiteral(ch))
    ensures p < |c| && ClassChar(c, p) == Read(One(ch), p + |ClassLiteral(ch)|) && c[p] !in {']', '-', '^'}
  {
    if |ClassLiteral(ch)| == 2 {
      AtTwo(c, p, '\\', ch);
    }
  }

  lemma {:induction false} ItemReads(c: string, p: nat, item: ClassItem)
    requires At(c, p, ShowItem(item)) && !Has(c, p + |ShowItem(item)|, '-')
    ensures p < |c| && c[p] !in {']', '-', '^'} && ClassElement(c, p) == ReadItem(item, p + |ShowItem(item)|)
  {
    match item
    case Single(ch) => ClassLiteralReads(c, p, ch);
    case Range(lo, hi) => RangeReads(c, p, lo, hi);
    case Digit(positive) => AtTwo(c, p, '\\', if positive then 'd' else 'D');
    case Word(positive) => AtTwo(c, p, '\\', if positive then 'w' else 'W');
    case Space(positive) => AtTwo(c, p, '\\', if positive then 's' else 'S');
  }

  lemma {:induction false} RangeReads(c: string, p: nat, lo: char, hi: char)
    requires At(c, p, ClassLiteral(lo) + "-" + ClassLiteral(hi))
    ensures p < |c| && c[p] !in {']', '-', '^'}
    ensures ClassElement(c, p) == ReadItem(Range(lo, hi), p + |ClassLiteral(lo) + "-" + ClassLiteral(hi)|)
  {
    var dash := p + |ClassLiteral(lo)|;
    AtParts(c, p, ClassLiteral(lo) + "-", ClassLiteral(hi));
    AtParts(c, p, ClassLiteral(lo), "-");
    ClassLiteralReads(c, p, lo);
    ClassLiteralReads(c, dash + 1, hi);
  }

  /** The first character of a list of items, and of what closes it. */
  lemma {:induction false} ItemsStart(c: string, p: nat, items: seq<ClassItem>)
    requires At(c, p, ShowItems(items) + "]")
    ensures p < |c| && c[p] != '-' && c[p] != '^' && (c[p] == ']' <==> items == [])
  {
    AtParts(c, p, ShowItems(items), "]");
    if items != [] {
      AtParts(c, p, ShowItem(items[0]), ShowItems(items[1..]));
      FirstOfItem(c, p, items[0]);
    }
  }

  lemma {:induction false} FirstOfItem(c: string, p: nat, item: ClassItem)
    requires At(c, p, ShowItem(item))
    ensures p < |c| && c[p] !in {']', '-', '^'}
  {
    match item
    case Single(ch) => ClassLiteralReads(c, p, ch);
    case Range(lo, hi) => RangeReads(c, p, lo, hi);
    case _ =>
  }

  lemma {:induction false} FirstItemReads(c: string, p: nat, q: nat, items: seq<ClassItem>, sofar: seq<ClassItem>, negated: bool,
                                          g: nat)
    requires items != [] && At(c, p, ShowItems(items) + "]") && q == p + |ShowItem(items[0])|
    ensures p <= q <= |c| && At(c, q, ShowItems(items[1..]) + "]") && |ShowItems(items)| == q - p + |ShowItems(items[1..])|
    ensures ClassItems(c, p, sofar, negated, g) == ClassItems(c, q, sofar + [items[0]], negated, g)
  {
    ItemsStart(c, p, items);
    ItemsSplit(c, p, items);
    ItemsStart(c, q, items[1..]);
    ItemReads(c, p, items[0]);
    ItemsStep(c, p, q, items[0], sofar, negated, g);
  }

  lemma {:induction false} ItemsRead(c: string, p: nat, items: seq<ClassItem>, sofar: seq<ClassItem>, negated: bool, g: nat)
    requires At(c, p, ShowItems(items) + "]")
    ensures p <= |c| && ClassItems(c, p, sofar, negated, g) == Got(Atom(Class(sofar + items, negated)), p + |ShowItems(items)| + 1, g)
    decreases |items|
  {
    if items == [] {
      ItemsStart(c, p, items);
      assert sofar + items == sofar;
    } else {
      var q := p + |ShowItem(items[0])|;
      FirstItemReads(c, p, q, items, sofar, negated, g);
      ItemsRead(c, q, items[1..], sofar + [items[0]], negated, g);
      Shift(sofar, items);
    }
  }

  lemma {:induction false} ItemsStep(c: string, p: nat, next: nat, item: ClassItem, sofar: seq<ClassItem>, negated: bool, g: nat)
    requires p < |c| && c[p] != ']' && ClassElement(c, p) == ReadItem(item, next)
    ensures next <= |c| && ClassItems(c, p, sofar, negated, g) == ClassItems(c, next, sofar + [item], negated, g)
  {
  }

  lemma {:induction false} ItemsSplit(c: string, p: nat, items: seq<ClassItem>)
    requires items != [] && At(c, p, ShowItems(items) + "]")
    ensures At(c, p, ShowItem(items[0])) && At(c, p + |ShowItem(items[0])|, ShowItems(items[1..]) + "]")
  {
    var first, rest := ShowItem(items[0]), ShowItems(items[1..]);
    assert ShowItems(items) + "]" == first + (rest + "]");
    AtParts(c, p, first, rest + "]");
  }

  lemma {:induction false} ClassReads(c: string, p: nat, items: seq<ClassItem>, negated: bool, g: nat)
    requires At(c, p, ShowTest(Class(items, negated)))
    ensures p < |c| && ParseAtom(c, p, g) == Got(Atom(Class(items, negated)), p + |ShowTest(Class(items, negated))|, g)
  {
    var body, sign := ShowItems(items) + "]", if negated then "^" else "";
    var start := p + 1 + |sign|;
    AtParts(c, p, "[" + sign, body);
    AtParts(c, p, "[", sign);
    ItemsRead(c, start, items, [], negated, g);
    ItemsStart(c, start, items);
    assert [] + items == items;
    assert Has(c, p + 1, '^') <==> negated;
    ClassOpens(c, p, start, negated, g, Got(Atom(Class(items, negated)), start + |ShowItems(items)| + 1, g));
  }

  lemma {:induction false} ClassOpens(c: string, p: nat, start: nat, negated: bool, g: nat, read: Parsed)
    requires Has(c, p, '[') && (Has(c, p + 1, '^') <==> negated) && start == (if negated then p + 2 else p + 1) <= |c|
    requires ClassItems(c, start, [], negated, g) == read
    ensures ParseAtom(c, p, g) == read
  {
  }

  lemma {:induction false} TestReads(c: string, p: nat, t: Test, g: nat)
    requires At(c, p, ShowTest(t))
    ensures p < |c| && ParseAtom(c, p, g) == Got(Atom(t), p + |ShowTest(t)|, g)
  {
    match t
    case Char(ch) => LiteralReads(c, p, ch, g);
    case Class(items, negated) => ClassReads(c, p, items, negated, g);
    case WordBoundary(want) => AtTwo(c, p, '\\', if want then 'b' else 'B');
    case _ =>
  }

  // ----- quantifiers read back -----

  lemma {:induction false} DigitsRead(c: string, p: nat, t: string, m: nat)
    requires At(c, p, t) && AllDigits(t) && Extended(m, t) <= MAX_REPEAT && (p + |t| == |c| || !IsDigit(c[p + |t|]))
    ensures IntFrom(c, p, m) == (Extended(m, t), p + |t|)
    decreases |t|
  {
    if t != [] {
      var n := m * 10 + DigitOf(t[0]);
      ExtendedGrows(n, t[1..]);
      DigitsRead(c, p + 1, t[1..], n);
    }
  }

  lemma {:induction false} IntReads(c: string, p: nat, n: nat)
    requires At(c, p, NatText(n)) && n <= MAX_REPEAT && (p + |NatText(n)| == |c| || !IsDigit(c[p + |NatText(n)|]))
    ensures ParseInt(c, p) == (Some(n), p + |NatText(n)|)
  {
    ExtendedIsValue(NatText(n));
    NatTextReads(n);
    DigitsRead(c, p, NatText(n), 0);
  }

  predicate InLimit(min: nat, max: Option<nat>) {
    min <= MAX_REPEAT && (max.Some? ==> min <= max.value <= MAX_REPEAT)
  }

  /** The end of a quantifier: the upper bound, the closing brace and the mark of a lazy one. */
  function UpperText(max: Option<nat>): string {
    if max.Some? then NatText(max.value) else ""
  }

  lemma {:induction false} UpperReads(c: string, p: nat, max: Option<nat>)
    requires At(c, p, UpperText(max)) && Has(c, p + |UpperText(max)|, '}') && (max.Some? ==> max.value <= MAX_REPEAT)
    ensures p <= |c| && ParseInt(c, p) == (max, p + |UpperText(max)|)
  {
    if max.Some? {
      IntReads(c, p, max.value);
    }
  }

  lemma {:induction false} CountedReads(c: string, p: nat, comma: nat, close: nat, min: nat, max: Option<nat>)
    requires Has(c, p, '{') && At(c, p + 1, NatText(min)) && comma == p + 1 + |NatText(min)| && Has(c, comma, ',')
    requires At(c, comma + 1, UpperText(max)) && close == comma + 1 + |UpperText(max)| && Has(c, close, '}') && InLimit(min, max)
    ensures ParseCounted(c, p) == Bounds(min, max, close + 1)
  {
    IntReads(c, p + 1, min);
    UpperReads(c, comma + 1, max);
  }

  lemma {:induction false} QuantifierParts(c: string, p: nat, min: nat, max: Option<nat>, greedy: bool)
    requires At(c, p, ShowQuantifier(min, max, greedy))
    ensures var comma := p + 1 + |NatText(min)|;
            var close := comma + 1 + |UpperText(max)|;
            && Has(c, p, '{') && At(c, p + 1, NatText(min))
            && Has(c, comma, ',') && At(c, comma + 1, UpperText(max)) && Has(c, close, '}')
            && (!greedy ==> Has(c, close + 1, '?'))
            && p + |ShowQuantifier(min, max, greedy)| == (if greedy then close + 1 else close + 2) <= |c|
  {
    var a, b := NatText(min), UpperText(max);
    var mark := if greedy then "" else "?";
    AtParts(c, p, "{", a + ("," + (b + ("}" + mark))));
    AtParts(c, p + 1, a, "," + (b + ("}" + mark)));
    AtParts(c, p + 1 + |a|, ",", b + ("}" + mark));
    AtParts(c, p + 2 + |a|, b, "}" + mark);
    AtParts(c, p + 2 + |a| + |b|, "}", mark);
  }

  /** A quantifier after its unit. */
  lemma {:induction false} QuantifiedReads(c: string, q: nat, unit: Node, groups: nat, min: nat, max: Option<nat>, greedy: bool)
    requires At(c, q, ShowQuantifier(min, max, greedy)) && InLimit(min, max)
    requires greedy ==> !Has(c, q + |ShowQuantifier(min, max, greedy)|, '?')
    ensures Quantified(c, Got(unit, q, groups)) == Got(Repeat(unit, min, max, greedy), q + |ShowQuantifier(min, max, greedy)|, groups)
  {
    QuantifierParts(c, q, min, max, greedy);
    var comma := q + 1 + |NatText(min)|;
    CountedReads(c, q, comma, comma + 1 + |UpperText(max)|, min, max);
  }

  // ----- trees read back -----

  /** Nothing that could extend an item follows. */
  predicate ItemEnds(c: string, q: nat) {
    q >= |c| || c[q] !in {'*', '+', '?', '{'}
  }

  predicate BranchEnds(c: string, q: nat) {
    q >= |c| || c[q] == '|' || c[q] == ')'
  }

  predicate BodyEnds(c: string, q: nat) {
    q >= |c| || c[q] == ')'
  }

  predicate StartsItem(c: string, p: nat) {
    p < |c| && c[p] !in {'*', '+', '?', '{', '|', ')'}
  }

  lemma {:induction false} TestStarts(c: string, p: nat, t: Test)
    requires At(c, p, ShowTest(t))
    ensures StartsItem(c, p)
  {
  }

  lemma {:induction false} ItemStarts(c: string, p: nat, node: Node)
    requires IsItem(node) && At(c, p, Show(node))
    ensures StartsItem(c, p)
    decreases node
  {
    match node
    case Atom(t) => TestStarts(c, p, t);
    case Group(index, n) => AtParts(c, p, if index.Some? then "(" else "(?:", Show(n) + ")");
    case Repeat(n, min, max, greedy) =>
      AtParts(c, p, Show(n), ShowQuantifier(min, max, greedy));
      ItemStarts(c, p, n);
  }

  lemma {:induction false} UnitReads(c: string, p: nat, node: Node, g: nat)
    requires IsUnit(node) && Numbered(node, g) && At(c, p, Show(node))
    ensures p < |c| && ParseAtom(c, p, g) == Got(node, p + |Show(node)|, After(node, g))
    decreases node, 0
  {
    match node
    case Atom(t) => TestReads(c, p, t, g);
    case Group(None, n) => PlainGroupReads(c, p, n, g);
    case Group(Some(_), n) => NumberedGroupReads(c, p, n, g);
  }

  lemma {:induction false} PlainGroupReads(c: string, p: nat, n: Node, g: nat)
    requires IsBody(n) && Numbered(n, g) && At(c, p, "(?:" + (Show(n) + ")"))
    ensures p < |c| && ParseAtom(c, p, g) == Got(Group(None, n), p + 4 + |Show(n)|, After(n, g))
    decreases n, 10
  {
    AtParts(c, p, "(?:", Show(n) + ")");
    AtParts(c, p + 3, Show(n), ")");
    var open := "(?:";
    assert open[1..] == "?:" && open[1..][1..] == ":";
    BodyReads(c, p + 3, n, g);
  }

  lemma {:induction false} NumberedGroupReads(c: string, p: nat, n: Node, g: nat)
    requires IsBody(n) && Numbered(n, g + 1) && At(c, p, "(" + (Show(n) + ")"))
    ensures p < |c| && ParseAtom(c, p, g) == Got(Group(Some(g), n), p + 2 + |Show(n)|, After(n, g + 1))
    decreases n, 10
  {
    AtParts(c, p, "(", Show(n) + ")");
    AtParts(c, p + 1, Show(n), ")");
    BodyReads(c, p + 1, n, g + 1);
    BodyStarts(c, p + 1, n);
    NumberedGroupCloses(c, p, n, g, Got(n, p + 1 + |Show(n)|, After(n, g + 1)));
  }

  lemma {:induction false} NumberedGroupCloses(c: string, p: nat, n: Node, g: nat, body: Parsed)
    requires Has(c, p, '(') && !Has(c, p + 1, '?') && p + 1 <= |c| && ParseAlternation(c, p + 1, g + 1) == body
    requires body.Got? && body.node == n && Has(c, body.next, ')')
    ensures ParseAtom(c, p, g) == Got(Group(Some(g), n), body.next + 1, body.groups)
  {
  }

  /** The text of an alternation does not begin with a question mark. */
  lemma {:induction false} BodyStarts(c: string, p: nat, node: Node)
    requires IsBody(node) && At(c, p, Show(node)) && BodyEnds(c, p + |Show(node)|)
    ensures !Has(c, p, '?')
  {
    if node.Alt? {
      var rest := ShowBranches(node.branches[1..]);
      assert AllBranches(node.branches) && IsBranch(node.branches[0]);
      assert ShowBranches(node.branches) == Show(node.branches[0]) + ("|" + rest);
      AtParts(c, p, Show(node.branches[0]), "|" + rest);
      AtParts(c, p + |Show(node.branches[0])|, "|", rest);
      BranchStarts(c, p, node.branches[0]);
    } else {
      BranchStarts(c, p, node);
    }
  }

  lemma {:induction false} BranchStarts(c: string, p: nat, node: Node)
    requires IsBranch(node) && At(c, p, Show(node)) && BranchEnds(c, p + |Show(node)|)
    ensures !Has(c, p, '?')
  {
    if node.Concat? {
      assert AllItems(node.nodes) && IsItem(node.nodes[0]);
      assert ShowAll(node.nodes) == Show(node.nodes[0]) + ShowAll(node.nodes[1..]);
      AtParts(c, p, Show(node.nodes[0]), ShowAll(node.nodes[1..]));
      ItemStarts(c, p, node.nodes[0]);
    } else if !node.Empty? {
      ItemStarts(c, p, node);
    }
  }

  lemma {:induction false} RepeatReads(c: string, p: nat, node: Node, g: nat)
    requires IsItem(node) && Numbered(node, g) && At(c, p, Show(node)) && ItemEnds(c, p + |Show(node)|)
    ensures p < |c| && ParseRepeat(c, p, g) == Got(node, p + |Show(node)|, After(node, g))
    decreases node, 1
  {
    if node.Repeat? {
      AtParts(c, p, Show(node.node), ShowQuantifier(node.min, node.max, node.greedy));
      UnitReads(c, p, node.node, g);
      QuantifiedReads(c, p + |Show(node.node)|, node.node, After(node.node, g), node.min, node.max, node.greedy);
    } else {
      UnitReads(c, p, node, g);
      NoQuantifier(c, Got(node, p + |Show(node)|, After(node, g)));
    }
  }

  lemma {:induction false} NoQuantifier(c: string, unit: Parsed)
    requires unit.Got? && unit.next <= |c| && ItemEnds(c, unit.next)
    ensures Quantified(c, unit) == unit
  {
  }

  lemma {:induction false} NodesRead(c: string, p: nat, nodes: seq<Node>, sofar: seq<Node>, g: nat)
    requires AllItems(nodes) && AllNumbered(nodes, g) && At(c, p, ShowAll(nodes)) && BranchEnds(c, p + |ShowAll(nodes)|)
    ensures p <= |c| && ParseNodes(c, p, g, sofar) == Got(Joined(sofar + nodes), p + |ShowAll(nodes)|, AfterAll(nodes, g))
    decreases nodes, 0
  {
    if nodes == [] {
      assert sofar + nodes == sofar;
    } else {
      var q := p + |Show(nodes[0])|;
      FirstNodeReads(c, p, q, nodes, sofar, g);
      NodesRead(c, q, nodes[1..], sofar + [nodes[0]], After(nodes[0], g));
      Shift(sofar, nodes);
    }
  }

  lemma {:induction false} FirstNodeReads(c: string, p: nat, q: nat, nodes: seq<Node>, sofar: seq<Node>, g: nat)
    requires nodes != [] && AllItems(nodes) && AllNumbered(nodes, g)
    requires At(c, p, ShowAll(nodes)) && BranchEnds(c, p + |ShowAll(nodes)|) && q == p + |Show(nodes[0])|
    ensures q <= |c| && At(c, q, ShowAll(nodes[1..])) && p + |ShowAll(nodes)| == q + |ShowAll(nodes[1..])|
    ensures ParseNodes(c, p, g, sofar) == ParseNodes(c, q, After(nodes[0], g), sofar + [nodes[0]])
    decreases nodes, 0, 0
  {
    var rest := nodes[1..];
    AtParts(c, p, Show(nodes[0]), ShowAll(rest));
    ItemStarts(c, p, nodes[0]);
    if rest != [] {
      AtParts(c, q, Show(rest[0]), ShowAll(rest[1..]));
      ItemStarts(c, q, rest[0]);
    }
    RepeatReads(c, p, nodes[0], g);
    NodesStep(c, p, q, nodes[0], sofar, g, After(nodes[0], g));
  }

  lemma {:induction false} NodesStep(c: string, p: nat, q: nat, n: Node, sofar: seq<Node>, g: nat, after: nat)
    requires StartsItem(c, p) && ParseRepeat(c, p, g) == Got(n, q, after)
    ensures q <= |c| && ParseNodes(c, p, g, sofar) == ParseNodes(c, q, after, sofar + [n])
  {
  }

  lemma {:induction false} BranchesStep(c: string, p: nat, q: nat, n: Node, sofar: seq<Node>, g: nat, after: nat)
    requires p <= |c| && ParseNodes(c, p, g, []) == Got(n, q, after) && Has(c, q, '|')
    ensures ParseBranches(c, p, g, sofar) == ParseBranches(c, q + 1, after, sofar + [n])
  {
  }

  lemma {:induction false} BranchesEnd(c: string, p: nat, q: nat, n: Node, sofar: seq<Node>, g: nat, after: nat)
    requires p <= |c| && ParseNodes(c, p, g, []) == Got(n, q, after) && !Has(c, q, '|')
    ensures ParseBranches(c, p, g, sofar) == Got(Chosen(sofar + [n]), q, after)
  {
  }

  lemma {:induction false} BranchReads(c: string, p: nat, node: Node, g: nat)
    requires IsBranch(node) && Numbered(node, g) && At(c, p, Show(node)) && BranchEnds(c, p + |Show(node)|)
    ensures p <= |c| && ParseNodes(c, p, g, []) == Got(node, p + |Show(node)|, After(node, g))
    decreases node, 2
  {
    if node.Concat? {
      NodesRead(c, p, node.nodes, [], g);
      assert [] + node.nodes == node.nodes;
    } else if !node.Empty? {
      RepeatReads(c, p, node, g);
      ItemStarts(c, p, node);
      assert [] + [node] == [node];
    }
  }

  lemma {:induction false} BranchBar(c: string, p: nat, q: nat, branches: seq<Node>)
    requires |branches| > 1 && At(c, p, ShowBranches(branches)) && q == p + |Show(branches[0])|
    ensures At(c, p, Show(branches[0])) && Has(c, q, '|') && At(c, q + 1, ShowBranches(branches[1..]))
    ensures p + |ShowBranches(branches)| == q + 1 + |ShowBranches(branches[1..])|
  {
    AtParts(c, p, Show(branches[0]), "|" + ShowBranches(branches[1..]));
    AtParts(c, q, "|", ShowBranches(branches[1..]));
  }

  lemma {:induction false} LastBranchReads(c: string, p: nat, branch: Node, sofar: seq<Node>, g: nat)
    requires IsBranch(branch) && Numbered(branch, g) && At(c, p, Show(branch)) && BodyEnds(c, p + |Show(branch)|)
    ensures p <= |c| && ParseBranches(c, p, g, sofar) == Got(Chosen(sofar + [branch]), p + |Show(branch)|, After(branch, g))
    decreases branch, 3
  {
    BranchReads(c, p, branch, g);
    BranchesEnd(c, p, p + |Show(branch)|, branch, sofar, g, After(branch, g));
  }

  lemma {:induction false} FirstBranchReads(c: string, p: nat, q: nat, branches: seq<Node>, sofar: seq<Node>, g: nat)
    requires |branches| > 1 && AllBranches(branches) && AllNumbered(branches, g)
    requires At(c, p, ShowBranches(branches)) && q == p + |Show(branches[0])|
    ensures q < |c| && At(c, q + 1, ShowBranches(branches[1..]))
    ensures p + |ShowBranches(branches)| == q + 1 + |ShowBranches(branches[1..])|
    ensures ParseBranches(c, p, g, sofar) == ParseBranches(c, q + 1, After(branches[0], g), sofar + [branches[0]])
    decreases branches, 2
  {
    BranchBar(c, p, q, branches);
    BranchReads(c, p, branches[0], g);
    BranchesStep(c, p, q, branches[0], sofar, g, After(branches[0], g));
  }

  lemma {:induction false} BranchesRead(c: string, p: nat, end: nat, branches: seq<Node>, sofar: seq<Node>, g: nat)
    requires branches != [] && AllBranches(branches) && AllNumbered(branches, g)
    requires At(c, p, ShowBranches(branches)) && end == p + |ShowBranches(branches)| && BodyEnds(c, end)
    ensures p <= |c| && ParseBranches(c, p, g, sofar) == Got(Chosen(sofar + branches), end, AfterAll(branches, g))
    decreases branches, 3
  {
    if |branches| == 1 {
      assert branches == [branches[0]] && ShowBranches(branches) == Show(branches[0]);
      LastBranchReads(c, p, branches[0], sofar, g);
      OneNode(branches, g);
    } else {
      var q := p + |Show(branches[0])|;
      FirstBranchReads(c, p, q, branches, sofar, g);
      BranchesRead(c, q + 1, end, branches[1..], sofar + [branches[0]], After(branches[0], g));
      Shift(sofar, branches);
    }
  }

  lemma {:induction false} BodyReads(c: string, p: nat, node: Node, g: nat)
    requires IsBody(node) && Numbered(node, g) && At(c, p, Show(node)) && BodyEnds(c, p + |Show(node)|)
    ensures p <= |c| && ParseAlternation(c, p, g) == Got(node, p + |Show(node)|, After(node, g))
    decreases node, 3
  {
    if node.Alt? {
      BranchesRead(c, p, p + |Show(node)|, node.branches, [], g);
      assert [] + node.branches == node.branches;
    } else {
      BranchReads(c, p, node, g);
      assert [] + [node] == [node];
    }
  }

  /** Every tree the parser can produce has a pattern that parses to it: together with
      `ParsedIsWellFormed`, the trees of patterns are exactly these. */
  lemma {:induction false} ShownParses(node: Node)
    requires IsBody(node) && Numbered(node, 1)
    ensures ParsePattern(Show(node)) == Ok(Pattern(node, After(node, 1)))
  {
    var c := Show(node);
    assert c[0..0 + |c|] == c;
    AtSlice(c, 0, c);
    BodyReads(c, 0, node, 1);
  }
}
