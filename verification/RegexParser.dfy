/** The pattern parser itself: a cursor and a group counter updated in place. */
module RegexParser {
  import opened Digits
  import opened Options
  import opened RegexSyntax
  import G = RegexGrammar

  class Parser {
    const chars: string
    var pos: nat
    var groupCount: nat

    constructor (pattern: string)
      ensures chars == pattern && pos == 0 && groupCount == 1
    {
      chars := pattern;
      pos := 0;
      groupCount := 1;
    }

    ghost predicate Valid()
      reads this
    {
      pos <= |chars|
    }

    /** The state agrees with what the grammar says about this read. */
    ghost predicate Follows(r: Result<Node, G.Error>, spec: G.Parsed)
      reads this
    {
      match spec
      case Stuck(e) => r == Err(e)
      case Got(n, next, groups) => r == Ok(n) && pos == next && groupCount == groups
    }

    function Peek(): Option<char>
      reads this
    {
      if pos < |chars| then Some(chars[pos]) else None
    }

    method Bump() returns (c: Option<char>)
      requires Valid()
      modifies this`pos
      ensures c == old(Peek()) && pos == if c.Some? then old(pos) + 1 else old(pos)
    {
      c := Peek();
      if c.Some? {
        pos := pos + 1;
      }
    }

    method ParseInt() returns (n: Option<nat>)
      requires Valid()
      modifies this`pos
      ensures Valid() && pos >= old(pos) && (n, pos) == G.ParseInt(chars, old(pos))
    {
      var start := pos;
      var value: nat := 0;
      while pos < |chars| && IsDigit(chars[pos])
        invariant start <= pos <= |chars| && G.IntFrom(chars, pos, value) == G.IntFrom(chars, start, 0)
        decreases |chars| - pos
      {
        value := G.AddDigit(value, chars[pos]);
        pos := pos + 1;
      }
      n := if pos == start then None else Some(value);
    }

    /** Rewinds when the brace does not start a quantifier. */
    method ParseCounted() returns (r: Result<Option<(nat, Option<nat>)>, G.Error>)
      requires Valid() && G.Has(chars, pos, '{')
      modifies this`pos
      ensures Valid() && pos >= old(pos)
      ensures match G.ParseCounted(chars, old(pos))
              case NotCounted => r == Ok(None) && pos == old(pos)
              case Refused(e) => r == Err(e)
              case Bounds(min, max, next) => r == Ok(Some((min, max))) && pos == next
    {
      var save := pos;
      pos := pos + 1;
      var min := ParseInt();
      var shape: Option<(nat, Option<nat>)> := None;
      if Peek() == Some('}') && min.Some? {
        pos := pos + 1;
        shape := Some((min.value, Some(min.value)));
      } else if Peek() == Some(',') {
        pos := pos + 1;
        var max := ParseInt();
        if Peek() == Some('}') {
          pos := pos + 1;
          shape := Some((if min.Some? then min.value else 0, max));
        }
      }
      assert G.CountedShape(chars, save) == if shape.None? then G.NotCounted else G.Bounds(shape.value.0, shape.value.1, pos);
      if shape.None? {
        pos := save;
        return Ok(None);
      }
      var (lo, hi) := shape.value;
      if hi.Some? && hi.value < lo {
        return Err(G.InvalidRange(lo, hi.value));
      }
      if lo > G.MAX_REPEAT || (hi.Some? && hi.value > G.MAX_REPEAT) {
        return Err(G.CountTooLarge);
      }
      return Ok(shape);
    }

    method ClassChar() returns (r: Result<G.ClassAtom, G.Error>)
      requires Valid()
      modifies this`pos
      ensures Valid() && pos >= old(pos)
      ensures match G.ClassChar(chars, old(pos))
              case Failed(e) => r == Err(e)
              case Read(atom, next) => r == Ok(atom) && pos == next
    {
      var first := Bump();
      match first
      case None => return Err(G.UnterminatedClass);
      case Some('\\') =>
        var second := Bump();
        if second.None? {
          return Err(G.TrailingBackslash);
        }
        return Ok(G.EscapedClassAtom(second.value));
      case Some(c) => return Ok(G.One(c));
    }

    /** One element of a class, or a range. */
    method ClassElement() returns (r: Result<ClassItem, G.Error>)
      requires Valid()
      modifies this`pos
      ensures Valid() && pos >= old(pos)
      ensures match G.ClassElement(chars, old(pos))
              case BadItem(e) => r == Err(e)
              case ReadItem(item, next) => r == Ok(item) && pos == next
    {
      var lo := ClassChar();
      if lo.Err? {
        return Err(lo.error);
      }
      match lo.value {
        case One(loC) =>
          if Peek() == Some('-') && !G.Has(chars, pos + 1, ']') {
            pos := pos + 1;
            var hi := ClassChar();
            if hi.Err? {
              return Err(hi.error);
            }
            match hi.value {
              case One(hiC) => return Ok(Range(loC, hiC));
              case Item(_) => return Err(G.InvalidClassRange);
            }
          }
          return Ok(Single(loC));
        case Item(item) => return Ok(item);
      }
    }

    method ParseClass() returns (r: Result<Node, G.Error>)
      requires Valid() && G.Has(chars, pos, '[')
      modifies this`pos
      ensures Valid() && Follows(r, G.ParseClass(chars, old(pos), groupCount)) && pos >= old(pos)
    {
      ghost var spec := G.ParseClass(chars, pos, groupCount);
      pos := pos + 1;
      var negated := Peek() == Some('^');
      if negated {
        pos := pos + 1;
      }
      var items: seq<ClassItem> := [];
      while pos < |chars|
        invariant Valid() && pos >= old(pos) && G.ClassItems(chars, pos, items, negated, groupCount) == spec
        decreases |chars| - pos
      {
        if chars[pos] == ']' {
          pos := pos + 1;
          return Ok(Atom(Class(items, negated)));
        }
        var item := ClassElement();
        if item.Err? {
          return Err(item.error);
        }
        items := items + [item.value];
      }
      return Err(G.UnterminatedClass);
    }

    method ParseEscape() returns (r: Result<Node, G.Error>)
      requires Valid() && G.Has(chars, pos, '\\')
      modifies this`pos
      ensures Valid() && Follows(r, G.ParseAtom(chars, old(pos), groupCount)) && pos >= old(pos)
    {
      pos := pos + 1;
      var c := Bump();
      match c
      case None => return Err(G.TrailingBackslash);
      case Some(ch) => return Ok(Atom(G.EscapedTest(ch)));
    }

    method ParseAtom() returns (r: Result<Node, G.Error>)
      requires Valid()
      modifies this
      ensures Valid() && Follows(r, G.ParseAtom(chars, old(pos), old(groupCount))) && pos >= old(pos)
      decreases |chars| - pos, 0
    {
      var c := Peek();
      match c
      case Some('(') => r := ParseGroup();
      case Some('[') => r := ParseClass();
      case Some('.') =>
        pos := pos + 1;
        r := Ok(Atom(AnyChar));
      case Some('^') =>
        pos := pos + 1;
        r := Ok(Atom(Start));
      case Some('$') =>
        pos := pos + 1;
        r := Ok(Atom(End));
      case Some('\\') => r := ParseEscape();
      case Some(ch) =>
        if ch == '*' || ch == '+' || ch == '?' {
          r := Err(G.DanglingQuantifier(ch));
        } else {
          pos := pos + 1;
          r := Ok(Atom(Char(ch)));
        }
      case None => r := Ok(Empty);
    }

    method ParseGroup() returns (r: Result<Node, G.Error>)
      requires Valid() && G.Has(chars, pos, '(')
      modifies this
      ensures Valid() && Follows(r, G.ParseGroup(chars, old(pos), old(groupCount))) && pos >= old(pos)
      decreases |chars| - pos, 0, 0
    {
      pos := pos + 1;
      var index := Some(groupCount);
      if Peek() == Some('?') {
        if G.Has(chars, pos + 1, ':') {
          pos := pos + 2;
          index := None;
        } else {
          return Err(G.UnsupportedGroup);
        }
      }
      if index.Some? {
        groupCount := index.value + 1;
      }
      var inner := ParseAlternation();
      if inner.Err? {
        return Err(inner.error);
      }
      if Peek() != Some(')') {
        return Err(G.MissingParen);
      }
      pos := pos + 1;
      return Ok(Group(index, inner.value));
    }

    method ParseRepeat() returns (r: Result<Node, G.Error>)
      requires Valid()
      modifies this
      ensures Valid() && Follows(r, G.ParseRepeat(chars, old(pos), old(groupCount))) && pos >= old(pos)
      decreases |chars| - pos, 1
    {
      var atom := ParseAtom();
      if atom.Err? {
        return atom;
      }
      var min: nat, max: Option<nat> := 0, None;
      var c := Peek();
      match c {
        case Some('*') => pos := pos + 1;
        case Some('+') =>
          pos := pos + 1;
          min := 1;
        case Some('?') =>
          pos := pos + 1;
          max := Some(1);
        case Some('{') =>
          var counted := ParseCounted();
          if counted.Err? {
            return Err(counted.error);
          }
          if counted.value.None? {
            return atom;
          }
          min, max := counted.value.value.0, counted.value.value.1;
        case _ => return atom;
      }
      var greedy := Peek() != Some('?');
      if !greedy {
        pos := pos + 1;
      }
      return Ok(Repeat(atom.value, min, max, greedy));
    }

    method ParseConcat() returns (r: Result<Node, G.Error>)
      requires Valid()
      modifies this
      ensures Valid() && Follows(r, G.ParseNodes(chars, old(pos), old(groupCount), [])) && pos >= old(pos)
      decreases |chars| - pos, 2
    {
      var nodes: seq<Node> := [];
      while pos < |chars| && chars[pos] != '|' && chars[pos] != ')'
        invariant Valid() && pos >= old(pos)
        invariant G.ParseNodes(chars, pos, groupCount, nodes) == G.ParseNodes(chars, old(pos), old(groupCount), [])
        decreases |chars| - pos
      {
        var n := ParseRepeat();
        if n.Err? {
          return n;
        }
        nodes := nodes + [n.value];
      }
      return Ok(if nodes == [] then Empty else if |nodes| == 1 then nodes[0] else Concat(nodes));
    }

    method ParseAlternation() returns (r: Result<Node, G.Error>)
      requires Valid()
      modifies this
      ensures Valid() && Follows(r, G.ParseAlternation(chars, old(pos), old(groupCount))) && pos >= old(pos)
      decreases |chars| - pos, 4
    {
      ghost var spec := G.ParseBranches(chars, pos, groupCount, []);
      var first := ParseConcat();
      if first.Err? {
        return first;
      }
      var branches: seq<Node> := [first.value];
      assert [] + branches == branches;
      while Peek() == Some('|')
        invariant Valid() && pos >= old(pos) && branches != []
        invariant spec == if G.Has(chars, pos, '|') then G.ParseBranches(chars, pos + 1, groupCount, branches)
                          else G.Got(G.Chosen(branches), pos, groupCount)
        decreases |chars| - pos
      {
        pos := pos + 1;
        var next := ParseConcat();
        if next.Err? {
          return next;
        }
        branches := branches + [next.value];
      }
      return Ok(if |branches| == 1 then branches[0] else Alt(branches));
    }
  }

  /** Parses a whole pattern. */
  method ParsePattern(pattern: string) returns (r: Result<G.Pattern, G.Error>)
    ensures r == G.ParsePattern(pattern)
  {
    var parser := new Parser(pattern);
    var ast := parser.ParseAlternation();
    if ast.Err? {
      return Err(ast.error);
    }
    if parser.pos != |parser.chars| {
      return Err(G.UnexpectedChar(parser.chars[parser.pos]));
    }
    return Ok(G.Pattern(ast.value, parser.groupCount));
  }
}
