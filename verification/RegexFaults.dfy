/** When a pattern is refused, what the error names is really in the pattern. */
module RegexFaults {
  import opened Options
  import opened RegexSyntax
  import opened RegexGrammar
  import opened RegexSpelling
  import opened RegexReading

  /** A count in braces whose bounds, as far as 64 bits hold them, satisfy the condition. */
  ghost predicate SomeBrace(c: string, fits: (nat, Option<nat>) -> bool) {
    exists p: nat, e: nat, min: nat, max: Option<nat> :: BraceAt(c, p, e, min, max) && fits(Sat(min), SatMax(max))
  }

  predicate TooLarge(min: nat, max: Option<nat>) {
    (max.Some? ==> min <= max.value) && (min > 1000 || (max.Some? && max.value > 1000))
  }

  /** The stretch from `p` opens a group with a question mark and no colon. */
  predicate OpensOddly(c: string, p: nat) {
    Has(c, p, '(') && Has(c, p + 1, '?') && !Has(c, p + 2, ':')
  }

  /** A dash before a shorthand. */
  predicate DashesShorthand(c: string, p: nat) {
    Has(c, p, '-') && Has(c, p + 1, '\\') && p + 2 < |c| && c[p + 2] in {'d', 'D', 'w', 'W', 's', 'S'}
  }

  /** What the error names is in the text. */
  ghost predicate Fault(c: string, e: Error) {
    match e
    case UnexpectedChar(ch) => ch == ')' && ch in c
    case InvalidRange(lo, hi) => hi < lo && SomeBrace(c, (min, max) => min == lo && max == Some(hi))
    case CountTooLarge => SomeBrace(c, TooLarge)
    case DanglingQuantifier(ch) => ch in {'*', '+', '?'} && ch in c
    case UnsupportedGroup => exists p: nat :: OpensOddly(c, p)
    case MissingParen => '(' in c
    case InvalidClassRange => exists p: nat :: DashesShorthand(c, p)
    case UnterminatedClass => '[' in c
    case TrailingBackslash => c != [] && c[|c| - 1] == '\\'
  }

  lemma {:induction false} CountFault(c: string, q: nat)
    requires q <= |c| && Quantifier(c, q).Refused?
    ensures Fault(c, Quantifier(c, q).error)
  {
    var min, max := BraceWasRead(c, q);
    var e := CountedShape(c, q).next;
    BraceIsRead(c, q, e, min, max);
    assert BraceAt(c, q, e, min, max);
  }

  /** In a class, whose opening bracket stands before `p`. */
  lemma {:induction false} ClassCharFault(c: string, p: nat)
    requires p <= |c| && '[' in c && ClassChar(c, p).Failed?
    ensures Fault(c, ClassChar(c, p).error)
  {
  }

  lemma {:induction false} ElementFault(c: string, p: nat)
    requires p <= |c| && '[' in c && ClassElement(c, p).BadItem?
    ensures Fault(c, ClassElement(c, p).error)
  {
    match ClassChar(c, p)
    case Failed(_) => ClassCharFault(c, p);
    case Read(One(lo), q) =>
      match ClassChar(c, q + 1)
      case Failed(_) => ClassCharFault(c, q + 1);
      case Read(Item(_), _) => assert DashesShorthand(c, q);
  }

  lemma {:induction false} ItemsFault(c: string, p: nat, items: seq<ClassItem>, negated: bool, groups: nat)
    requires p <= |c| && '[' in c && ClassItems(c, p, items, negated, groups).Stuck?
    ensures Fault(c, ClassItems(c, p, items, negated, groups).error)
    decreases |c| - p
  {
    if p < |c| {
      match ClassElement(c, p)
      case BadItem(_) => ElementFault(c, p);
      case ReadItem(item, next) => ItemsFault(c, next, items + [item], negated, groups);
    }
  }

  lemma {:induction false} AtomFault(c: string, p: nat, groups: nat)
    requires p <= |c| && ParseAtom(c, p, groups).Stuck?
    ensures Fault(c, ParseAtom(c, p, groups).error)
    decreases |c| - p, 0
  {
    assert c[p] in c;
    if c[p] == '(' {
      GroupFault(c, p, groups);
    } else if c[p] == '[' {
      if Has(c, p + 1, '^') {
        ItemsFault(c, p + 2, [], true, groups);
      } else {
        ItemsFault(c, p + 1, [], false, groups);
      }
    }
  }

  lemma {:induction false} GroupFault(c: string, p: nat, groups: nat)
    requires Has(c, p, '(') && ParseGroup(c, p, groups).Stuck?
    ensures Fault(c, ParseGroup(c, p, groups).error)
    decreases |c| - p, 0, 0
  {
    assert c[p] in c;
    if Has(c, p + 1, '?') && !Has(c, p + 2, ':') {
      assert OpensOddly(c, p);
    } else {
      var start, g := if Has(c, p + 1, '?') then p + 3 else p + 1, if Has(c, p + 1, '?') then groups else groups + 1;
      if ParseAlternation(c, start, g).Stuck? {
        BranchesFault(c, start, g, []);
      }
    }
  }

  lemma {:induction false} RepeatFault(c: string, p: nat, groups: nat)
    requires p <= |c| && ParseRepeat(c, p, groups).Stuck?
    ensures Fault(c, ParseRepeat(c, p, groups).error)
    decreases |c| - p, 1
  {
    match ParseAtom(c, p, groups)
    case Stuck(_) => AtomFault(c, p, groups);
    case Got(_, q, _) => CountFault(c, q);
  }

  lemma {:induction false} NodesFault(c: string, p: nat, groups: nat, sofar: seq<Node>)
    requires p <= |c| && ParseNodes(c, p, groups, sofar).Stuck?
    ensures Fault(c, ParseNodes(c, p, groups, sofar).error)
    decreases |c| - p, 2
  {
    match ParseRepeat(c, p, groups)
    case Stuck(_) => RepeatFault(c, p, groups);
    case Got(n, next, g) => NodesFault(c, next, g, sofar + [n]);
  }

  lemma {:induction false} BranchesFault(c: string, p: nat, groups: nat, sofar: seq<Node>)
    requires p <= |c| && ParseBranches(c, p, groups, sofar).Stuck?
    ensures Fault(c, ParseBranches(c, p, groups, sofar).error)
    decreases |c| - p, 3
  {
    match ParseNodes(c, p, groups, [])
    case Stuck(_) => NodesFault(c, p, groups, []);
    case Got(n, next, g) => BranchesFault(c, next + 1, g, sofar + [n]);
  }

  lemma {:induction false} NodesStop(c: string, p: nat, groups: nat, sofar: seq<Node>)
    requires p <= |c| && ParseNodes(c, p, groups, sofar).Got?
    ensures var q := ParseNodes(c, p, groups, sofar).next; q == |c| || c[q] == '|' || c[q] == ')'
    decreases |c| - p
  {
    if p < |c| && c[p] != '|' && c[p] != ')' {
      var Got(n, next, g) := ParseRepeat(c, p, groups);
      NodesStop(c, next, g, sofar + [n]);
    }
  }

  /** Branches end at the end of the text or at a closing parenthesis. */
  lemma {:induction false} BranchesStop(c: string, p: nat, groups: nat, sofar: seq<Node>)
    requires p <= |c| && ParseBranches(c, p, groups, sofar).Got?
    ensures var q := ParseBranches(c, p, groups, sofar).next; q == |c| || c[q] == ')'
    decreases |c| - p
  {
    NodesStop(c, p, groups, []);
    var Got(n, next, g) := ParseNodes(c, p, groups, []);
    if Has(c, next, '|') {
      BranchesStop(c, next + 1, g, sofar + [n]);
    }
  }

  /** A refused pattern has the fault its error names. */
  lemma {:induction false} FaultIsReal(c: string)
    requires ParsePattern(c).Err?
    ensures Fault(c, ParsePattern(c).error)
  {
    match ParseAlternation(c, 0, 1)
    case Stuck(_) => BranchesFault(c, 0, 1, []);
    case Got(_, next, _) => BranchesStop(c, 0, 1, []);
  }
}
