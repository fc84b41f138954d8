/** Patterns as texts: which stretches of a pattern spell which trees, in all the ways there are. The
    parser reads exactly these spellings. */
module RegexSpelling {
  import opened Digits
  import opened Options
  import opened RegexSyntax
  import opened RegexGrammar
  import opened RegexPattern

  // ----- counts -----

  predicate DigitRun(c: string, p: nat, q: nat) {
    p <= q <= |c| && AllDigits(c[p..q])
  }

  function NumberAt(c: string, p: nat, q: nat): nat
    requires DigitRun(c, p, q)
  {
    DigitsValue(c[p..q])
  }

  /** `{n}` */
  predicate ExactBrace(c: string, p: nat, a: nat, e: nat, min: nat, max: Option<nat>) {
    && Has(c, p, '{') && p + 1 < a && DigitRun(c, p + 1, a) && Has(c, a, '}') && e == a + 1
    && min == NumberAt(c, p + 1, a) && max == Some(min)
  }

  /** `{n,m}`; a missing lower bound is zero and a missing upper one is none. */
  predicate RangeBrace(c: string, p: nat, a: nat, b: nat, e: nat, min: nat, max: Option<nat>) {
    && Has(c, p, '{') && p + 1 <= a && DigitRun(c, p + 1, a) && Has(c, a, ',') && DigitRun(c, a + 1, b) && Has(c, b, '}') && e == b + 1
    && min == NumberAt(c, p + 1, a)
    && max == if b == a + 1 then None else Some(NumberAt(c, a + 1, b))
  }

  ghost predicate BraceAt(c: string, p: nat, e: nat, min: nat, max: Option<nat>) {
    || (exists a: nat :: ExactBrace(c, p, a, e, min, max))
    || (exists a: nat, b: nat :: RangeBrace(c, p, a, b, e, min, max))
  }

  /** `*`, `+`, `?` or a count in braces within the limits. */
  ghost predicate CountAt(c: string, p: nat, e: nat, min: nat, max: Option<nat>) {
    || (Has(c, p, '*') && e == p + 1 && min == 0 && max == None)
    || (Has(c, p, '+') && e == p + 1 && min == 1 && max == None)
    || (Has(c, p, '?') && e == p + 1 && min == 0 && max == Some(1))
    || (BraceAt(c, p, e, min, max) && InLimit(min, max))
  }

  /** A count, followed by a question mark if and only if it is lazy. */
  ghost predicate QuantifierAt(c: string, p: nat, q: nat, min: nat, max: Option<nat>, greedy: bool) {
    if greedy then CountAt(c, p, q, min, max) && !Has(c, q, '?')
    else q > 0 && CountAt(c, p, q - 1, min, max) && Has(c, q - 1, '?')
  }

  /** Nothing that is or looks like a quantifier. */
  ghost predicate NoCountAt(c: string, p: nat) {
    && !Has(c, p, '*') && !Has(c, p, '+') && !Has(c, p, '?')
    && (forall e: nat, min: nat, max: Option<nat> :: !BraceAt(c, p, e, min, max))
  }

  // ----- single tests -----

  /** The backslash and this letter stand for the character. */
  predicate Escapes(letter: char, ch: char) {
    if letter == 'n' then ch == '\n'
    else if letter == 't' then ch == '\t'
    else if letter == 'r' then ch == '\r'
    else if letter == '0' then ch as int == 0
    else letter !in {'d', 'D', 'w', 'W', 's', 'S', 'b', 'B'} && ch == letter
  }

  /** The same inside brackets, where `0`, `b` and `B` have no meaning of their own. */
  predicate ClassEscapes(letter: char, ch: char) {
    if letter == 'n' then ch == '\n'
    else if letter == 't' then ch == '\t'
    else if letter == 'r' then ch == '\r'
    else letter !in {'d', 'D', 'w', 'W', 's', 'S'} && ch == letter
  }

  predicate Escaped(c: string, p: nat, q: nat, letter: char) {
    Has(c, p, '\\') && Has(c, p + 1, letter) && q == p + 2
  }

  predicate ClassCharAt(c: string, p: nat, q: nat, ch: char) {
    || (Has(c, p, ch) && ch != '\\' && q == p + 1)
    || (Has(c, p, '\\') && p + 1 < |c| && ClassEscapes(c[p + 1], ch) && q == p + 2)
  }

  /** A dash that is not the last character of the class makes a range. */
  predicate DashAt(c: string, p: nat) {
    Has(c, p, '-') && !Has(c, p + 1, ']')
  }

  predicate RangeAt(c: string, p: nat, m: nat, q: nat, lo: char, hi: char) {
    ClassCharAt(c, p, m, lo) && DashAt(c, m) && ClassCharAt(c, m + 1, q, hi)
  }

  ghost predicate ClassItemAt(c: string, p: nat, q: nat, item: ClassItem) {
    match item
    case Single(ch) => ClassCharAt(c, p, q, ch) && !DashAt(c, q)
    case Range(lo, hi) => exists m: nat :: RangeAt(c, p, m, q, lo, hi)
    case Digit(positive) => Escaped(c, p, q, if positive then 'd' else 'D')
    case Word(positive) => Escaped(c, p, q, if positive then 'w' else 'W')
    case Space(positive) => Escaped(c, p, q, if positive then 's' else 'S')
  }

  /** The items of a class up to its closing bracket. */
  ghost predicate ClassItemsAt(c: string, p: nat, q: nat, items: seq<ClassItem>)
    decreases |items|
  {
    if items == [] then p == q && Has(c, q, ']')
    else p < |c| && c[p] != ']' && exists m: nat :: ClassItemAt(c, p, m, items[0]) && ClassItemsAt(c, m, q, items[1..])
  }

  /** A class in brackets, or one of the shorthands outside them. */
  ghost predicate ClassAt(c: string, p: nat, q: nat, items: seq<ClassItem>, negated: bool) {
    || (Has(c, p, '[') && q > 0 && (Has(c, p + 1, '^') <==> negated) && ClassItemsAt(c, if negated then p + 2 else p + 1, q - 1, items))
    || (items == [Digit(true)] && Escaped(c, p, q, if negated then 'D' else 'd'))
    || (items == [Word(true)] && Escaped(c, p, q, if negated then 'W' else 'w'))
    || (items == [Space(true)] && Escaped(c, p, q, if negated then 'S' else 's'))
  }

  /** Characters that do not stand for themselves at the start of an item. */
  const SPECIAL: set<char> := {'(', ')', '[', '.', '^', '$', '\\', '*', '+', '?', '|'}

  ghost predicate TestAt(c: string, p: nat, q: nat, t: Test) {
    match t
    case Char(ch) =>
      || (Has(c, p, ch) && ch !in SPECIAL && q == p + 1)
      || (Has(c, p, '\\') && p + 1 < |c| && Escapes(c[p + 1], ch) && q == p + 2)
    case AnyChar => Has(c, p, '.') && q == p + 1
    case Class(items, negated) => ClassAt(c, p, q, items, negated)
    case Start => Has(c, p, '^') && q == p + 1
    case End => Has(c, p, '$') && q == p + 1
    case WordBoundary(want) => Escaped(c, p, q, if want then 'b' else 'B')
  }

  // ----- trees -----

  ghost predicate UnitAt(c: string, p: nat, q: nat, n: Node)
    decreases n, 0
  {
    match n
    case Atom(t) => TestAt(c, p, q, t)
    case Group(None, inner) =>
      q > 0 && Has(c, p, '(') && Has(c, p + 1, '?') && Has(c, p + 2, ':') && BodyAt(c, p + 3, q - 1, inner) && Has(c, q - 1, ')')
    case Group(Some(_), inner) =>
      q > 0 && Has(c, p, '(') && !Has(c, p + 1, '?') && BodyAt(c, p + 1, q - 1, inner) && Has(c, q - 1, ')')
    case _ => false
  }

  /** A unit with its quantifier, or without one where none can be read. */
  ghost predicate ItemAt(c: string, p: nat, q: nat, n: Node)
    decreases n, 1
  {
    match n
    case Repeat(unit, min, max, greedy) => exists m: nat :: UnitAt(c, p, m, unit) && QuantifierAt(c, m, q, min, max, greedy)
    case _ => UnitAt(c, p, q, n) && NoCountAt(c, q)
  }

  ghost predicate ItemsAt(c: string, p: nat, q: nat, nodes: seq<Node>)
    decreases nodes, 2
  {
    if nodes == [] then p == q else exists m: nat :: ItemAt(c, p, m, nodes[0]) && ItemsAt(c, m, q, nodes[1..])
  }

  ghost predicate BranchAt(c: string, p: nat, q: nat, n: Node)
    decreases n, 2
  {
    match n
    case Empty => p == q
    case Concat(nodes) => |nodes| >= 2 && ItemsAt(c, p, q, nodes)
    case Alt(_) => false
    case _ => ItemAt(c, p, q, n)
  }

  ghost predicate BranchesAt(c: string, p: nat, q: nat, branches: seq<Node>)
    decreases branches, 3
  {
    && branches != []
    && if |branches| == 1 then BranchAt(c, p, q, branches[0])
       else exists m: nat :: BranchAt(c, p, m, branches[0]) && Has(c, m, '|') && BranchesAt(c, m + 1, q, branches[1..])
  }

  ghost predicate BodyAt(c: string, p: nat, q: nat, n: Node)
    decreases n, 3
  {
    match n
    case Alt(branches) => |branches| >= 2 && BranchesAt(c, p, q, branches)
    case _ => BranchAt(c, p, q, n)
  }
}
