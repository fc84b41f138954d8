/** What the pattern parser computes: recursive descent over the characters of a pattern. */
module RegexGrammar {
  import opened Digits
  import opened Options
  import opened RegexSyntax

  datatype Error =
    | UnexpectedChar(c: char)
    | InvalidRange(min: nat, max: nat)
    | CountTooLarge
    | DanglingQuantifier(c: char)
    | UnsupportedGroup
    | MissingParen
    | InvalidClassRange
    | UnterminatedClass
    | TrailingBackslash

  const MAX_REPEAT: nat := 1000
  const USIZE_MAX: nat := 0xFFFF_FFFF_FFFF_FFFF

  /** A piece of pattern read: what it stands for, where it ends, and the group count after it. */
  datatype Parsed = Got(node: Node, next: nat, groups: nat) | Stuck(error: Error)

  predicate Has(c: string, p: nat, ch: char) {
    p < |c| && c[p] == ch
  }

  // ----- quantifiers -----

  function AddDigit(n: nat, ch: char): nat
    requires IsDigit(ch)
  {
    var tenfold := if n * 10 > USIZE_MAX then USIZE_MAX else n * 10;
    var m := tenfold + DigitOf(ch);
    if m > USIZE_MAX then USIZE_MAX else m
  }

  /** A run of digits from `p`, saturating. */
  function IntFrom(c: string, p: nat, n: nat): (r: (nat, nat))
    requires p <= |c|
    ensures p <= r.1 <= |c|
    decreases |c| - p
  {
    if p < |c| && IsDigit(c[p]) then IntFrom(c, p + 1, AddDigit(n, c[p])) else (n, p)
  }

  function ParseInt(c: string, p: nat): (r: (Option<nat>, nat))
    requires p <= |c|
    ensures p <= r.1 <= |c|
  {
    var (n, q) := IntFrom(c, p, 0);
    (if q == p then None else Some(n), q)
  }

  datatype Counted = NotCounted | Bounds(min: nat, max: Option<nat>, next: nat) | Refused(error: Error)

  /** `{n}`, `{n,}`, `{n,m}` or `{,m}`; anything else after the brace leaves it a literal. */
  function CountedShape(c: string, p: nat): (r: Counted)
    requires Has(c, p, '{')
    ensures r.Bounds? ==> p < r.next <= |c|
  {
    var (min, q) := ParseInt(c, p + 1);
    if Has(c, q, '}') && min.Some? then Bounds(min.value, min, q + 1)
    else if Has(c, q, ',') then
      var (max, r) := ParseInt(c, q + 1);
      if Has(c, r, '}') then Bounds(if min.Some? then min.value else 0, max, r + 1) else NotCounted
    else NotCounted
  }

  function ParseCounted(c: string, p: nat): (r: Counted)
    requires Has(c, p, '{')
    ensures r.Bounds? ==> p < r.next <= |c|
  {
    match CountedShape(c, p)
    case Bounds(min, max, next) =>
      if max.Some? && max.value < min then Refused(InvalidRange(min, max.value))
      else if min > MAX_REPEAT || (max.Some? && max.value > MAX_REPEAT) then Refused(CountTooLarge)
      else Bounds(min, max, next)
    case other => other
  }

  function Quantifier(c: string, q: nat): (r: Counted)
    requires q <= |c|
    ensures r.Bounds? ==> q < r.next <= |c|
  {
    if Has(c, q, '*') then Bounds(0, None, q + 1)
    else if Has(c, q, '+') then Bounds(1, None, q + 1)
    else if Has(c, q, '?') then Bounds(0, Some(1), q + 1)
    else if Has(c, q, '{') then ParseCounted(c, q)
    else NotCounted
  }

  // ----- classes and escapes -----

  datatype ClassAtom = One(c: char) | Item(item: ClassItem)

  datatype ReadClassAtom = Read(atom: ClassAtom, next: nat) | Failed(error: Error)

  function EscapedClassAtom(ch: char): ClassAtom {
    match ch
    case 'd' => Item(Digit(true))
    case 'D' => Item(Digit(false))
    case 'w' => Item(Word(true))
    case 'W' => Item(Word(false))
    case 's' => Item(Space(true))
    case 'S' => Item(Space(false))
    case 'n' => One('\n')
    case 't' => One('\t')
    case 'r' => One('\r')
    case _ => One(ch)
  }

  function ClassChar(c: string, p: nat): (r: ReadClassAtom)
    requires p <= |c|
    ensures r.Read? ==> p < r.next <= |c|
  {
    if p == |c| then Failed(UnterminatedClass)
    else if c[p] != '\\' then Read(One(c[p]), p + 1)
    else if p + 1 == |c| then Failed(TrailingBackslash)
    else Read(EscapedClassAtom(c[p + 1]), p + 2)
  }

  datatype ReadItem = ReadItem(item: ClassItem, next: nat) | BadItem(error: Error)

  /** One element of a class, or a range; a dash just before the closing bracket is itself. */
  function ClassElement(c: string, p: nat): (r: ReadItem)
    requires p <= |c|
    ensures r.ReadItem? ==> p < r.next <= |c|
  {
    match ClassChar(c, p)
    case Failed(e) => BadItem(e)
    case Read(Item(item), q) => ReadItem(item, q)
    case Read(One(lo), q) =>
      if Has(c, q, '-') && !Has(c, q + 1, ']') then
        match ClassChar(c, q + 1)
        case Failed(e) => BadItem(e)
        case Read(One(hi), r) => ReadItem(Range(lo, hi), r)
        case Read(Item(_), _) => BadItem(InvalidClassRange)
      else ReadItem(Single(lo), q)
  }

  function ClassItems(c: string, p: nat, items: seq<ClassItem>, negated: bool, groups: nat): (r: Parsed)
    requires p <= |c|
    ensures r.Got? ==> p < r.next <= |c| && r.groups == groups && r.node.Atom?
    decreases |c| - p
  {
    if p == |c| then Stuck(UnterminatedClass)
    else if c[p] == ']' then Got(Atom(Class(items, negated)), p + 1, groups)
    else
      match ClassElement(c, p)
      case BadItem(e) => Stuck(e)
      case ReadItem(item, next) => ClassItems(c, next, items + [item], negated, groups)
  }

  function ParseClass(c: string, p: nat, groups: nat): (r: Parsed)
    requires Has(c, p, '[')
    ensures r.Got? ==> p < r.next <= |c| && r.groups == groups && r.node.Atom?
  {
    if Has(c, p + 1, '^') then ClassItems(c, p + 2, [], true, groups) else ClassItems(c, p + 1, [], false, groups)
  }

  function EscapedTest(ch: char): Test {
    match ch
    case 'd' => Class([Digit(true)], false)
    case 'D' => Class([Digit(true)], true)
    case 'w' => Class([Word(true)], false)
    case 'W' => Class([Word(true)], true)
    case 's' => Class([Space(true)], false)
    case 'S' => Class([Space(true)], true)
    case 'b' => WordBoundary(true)
    case 'B' => WordBoundary(false)
    case 'n' => Char('\n')
    case 't' => Char('\t')
    case 'r' => Char('\r')
    case '0' => Char(0 as char)
    case _ => Char(ch)
  }

  // ----- patterns -----

  function ParseAtom(c: string, p: nat, groups: nat): (r: Parsed)
    requires p <= |c|
    ensures r.Got? ==> p <= r.next <= |c| && (p < |c| ==> p < r.next)
    decreases |c| - p, 0
  {
    if p == |c| then Got(Empty, p, groups)
    else
      match c[p]
      case '(' => ParseGroup(c, p, groups)
      case '[' => ParseClass(c, p, groups)
      case '.' => Got(Atom(AnyChar), p + 1, groups)
      case '^' => Got(Atom(Start), p + 1, groups)
      case '$' => Got(Atom(End), p + 1, groups)
      case '\\' => if p + 1 < |c| then Got(Atom(EscapedTest(c[p + 1])), p + 2, groups) else Stuck(TrailingBackslash)
      case '*' => Stuck(DanglingQuantifier('*'))
      case '+' => Stuck(DanglingQuantifier('+'))
      case '?' => Stuck(DanglingQuantifier('?'))
      case ch => Got(Atom(Char(ch)), p + 1, groups)
  }

  /** Groups are numbered by their opening parentheses; only `(?:` opens one without a number. */
  function ParseGroup(c: string, p: nat, groups: nat): (r: Parsed)
    requires Has(c, p, '(')
    ensures r.Got? ==> p < r.next <= |c|
    decreases |c| - p, 0, 0
  {
    if Has(c, p + 1, '?') then
      if Has(c, p + 2, ':') then CloseGroup(c, None, ParseAlternation(c, p + 3, groups)) else Stuck(UnsupportedGroup)
    else CloseGroup(c, Some(groups), ParseAlternation(c, p + 1, groups + 1))
  }

  function CloseGroup(c: string, index: Option<nat>, inner: Parsed): (r: Parsed)
    ensures r.Got? ==> inner.Got? && r.next == inner.next + 1 <= |c|
  {
    match inner
    case Stuck(e) => Stuck(e)
    case Got(n, next, groups) => if Has(c, next, ')') then Got(Group(index, n), next + 1, groups) else Stuck(MissingParen)
  }

  function Quantified(c: string, atom: Parsed): (r: Parsed)
    requires atom.Got? ==> atom.next <= |c|
    ensures r.Got? ==> atom.Got? && atom.next <= r.next <= |c| && r.groups == atom.groups
  {
    match atom
    case Stuck(e) => Stuck(e)
    case Got(n, q, groups) =>
      match Quantifier(c, q)
      case NotCounted => atom
      case Refused(e) => Stuck(e)
      case Bounds(min, max, next) =>
        if Has(c, next, '?') then Got(Repeat(n, min, max, false), next + 1, groups)
        else Got(Repeat(n, min, max, true), next, groups)
  }

  function ParseRepeat(c: string, p: nat, groups: nat): (r: Parsed)
    requires p <= |c|
    ensures r.Got? ==> p <= r.next <= |c| && (p < |c| ==> p < r.next)
    decreases |c| - p, 1
  {
    Quantified(c, ParseAtom(c, p, groups))
  }

  function Joined(nodes: seq<Node>): Node {
    if nodes == [] then Empty else if |nodes| == 1 then nodes[0] else Concat(nodes)
  }

  function ParseNodes(c: string, p: nat, groups: nat, sofar: seq<Node>): (r: Parsed)
    requires p <= |c|
    ensures r.Got? ==> p <= r.next <= |c|
    decreases |c| - p, 2
  {
    if p == |c| || c[p] == '|' || c[p] == ')' then Got(Joined(sofar), p, groups)
    else
      match ParseRepeat(c, p, groups)
      case Stuck(e) => Stuck(e)
      case Got(n, next, g) => ParseNodes(c, next, g, sofar + [n])
  }

  function Chosen(branches: seq<Node>): Node {
    if |branches| == 1 then branches[0] else Alt(branches)
  }

  function ParseBranches(c: string, p: nat, groups: nat, sofar: seq<Node>): (r: Parsed)
    requires p <= |c|
    ensures r.Got? ==> p <= r.next <= |c|
    decreases |c| - p, 3
  {
    match ParseNodes(c, p, groups, [])
    case Stuck(e) => Stuck(e)
    case Got(n, next, g) =>
      if Has(c, next, '|') then ParseBranches(c, next + 1, g, sofar + [n]) else Got(Chosen(sofar + [n]), next, g)
  }

  function ParseAlternation(c: string, p: nat, groups: nat): (r: Parsed)
    requires p <= |c|
    ensures r.Got? ==> p <= r.next <= |c|
    decreases |c| - p, 4
  {
    ParseBranches(c, p, groups, [])
  }

  datatype Pattern = Pattern(ast: Node, groupCount: nat)

  /** A whole pattern; group 0 is the match itself. */
  function ParsePattern(c: string): Result<Pattern, Error> {
    match ParseAlternation(c, 0, 1)
    case Stuck(e) => Err(e)
    case Got(ast, next, groups) => if next == |c| then Ok(Pattern(ast, groups)) else Err(UnexpectedChar(c[next]))
  }
}
