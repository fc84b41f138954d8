/** Patterns whose matches all have the same length, whatever the text. */
module RegexWidth {
  import opened Options
  import opened RegexSyntax
  import opened RegexExec
  import opened RegexLanguage

  function Rounds(k: nat, w: nat): nat {
    if k == 0 then 0 else w + Rounds(k - 1, w)
  }

  /** How many characters every match of the node takes, if that is one number. */
  function WidthOf(node: Node): Option<nat>
    decreases node, 0
  {
    match node
    case Empty => Some(0)
    case Atom(t) => Some(Width(t))
    case Concat(nodes) => SeqWidth(nodes)
    case Alt(branches) => AltWidth(branches)
    case Repeat(n, min, max, _) =>
      if max == Some(0) || WidthOf(n) == Some(0) then Some(0)
      else if max == Some(min) && WidthOf(n).Some? then Some(Rounds(min, WidthOf(n).value))
      else None
    case Group(_, n) => WidthOf(n)
  }

  function SeqWidth(nodes: seq<Node>): Option<nat>
    decreases nodes, 0
  {
    if nodes == [] then Some(0)
    else
      match (WidthOf(nodes[0]), SeqWidth(nodes[1..]))
      case (Some(a), Some(b)) => Some(a + b)
      case _ => None
  }

  function AltWidth(branches: seq<Node>): Option<nat>
    decreases branches, 0
  {
    if branches == [] then None
    else if |branches| == 1 || AltWidth(branches[1..]) == WidthOf(branches[0]) then WidthOf(branches[0])
    else None
  }

  /** Every match of such a node takes that many characters. */
  lemma {:induction false} MatchHasWidth(s: Text, node: Node, x: Cursor, y: Cursor)
    requires Derives(s, node, x, y) && WidthOf(node).Some?
    ensures y.pos == x.pos + WidthOf(node).value
    decreases node, 0
  {
    match node
    case Empty =>
    case Atom(_) =>
    case Concat(nodes) => SeqHasWidth(s, nodes, x, y);
    case Alt(branches) => AltHasWidth(s, branches, x, y);
    case Repeat(n, min, max, _) =>
      var k: nat :| min <= k && (max.Some? ==> k <= max.value) && DerivesTimes(s, n, k, x, y);
      if k > 0 {
        TimesHaveWidth(s, n, k, x, y);
        NoWidth(k);
      }
    case Group(index, n) =>
      if index.None? {
        MatchHasWidth(s, n, x, y);
      } else {
        var m: Cursor :| Derives(s, n, x.Record(2 * index.value), m) && y == m.Record(2 * index.value + 1);
        MatchHasWidth(s, n, x.Record(2 * index.value), m);
      }
  }

  lemma {:induction false} NoWidth(k: nat)
    ensures Rounds(k, 0) == 0
    decreases k
  {
    if k > 0 {
      NoWidth(k - 1);
    }
  }

  lemma {:induction false} SeqHasWidth(s: Text, nodes: seq<Node>, x: Cursor, y: Cursor)
    requires DerivesSeq(s, nodes, x, y) && SeqWidth(nodes).Some?
    ensures y.pos == x.pos + SeqWidth(nodes).value
    decreases nodes, 0
  {
    if nodes != [] {
      var m: Cursor :| Derives(s, nodes[0], x, m) && DerivesSeq(s, nodes[1..], m, y);
      MatchHasWidth(s, nodes[0], x, m);
      SeqHasWidth(s, nodes[1..], m, y);
    }
  }

  lemma {:induction false} AltHasWidth(s: Text, branches: seq<Node>, x: Cursor, y: Cursor)
    requires DerivesAlt(s, branches, x, y) && AltWidth(branches).Some?
    ensures y.pos == x.pos + AltWidth(branches).value
    decreases branches, 0
  {
    if Derives(s, branches[0], x, y) {
      MatchHasWidth(s, branches[0], x, y);
    } else {
      AltHasWidth(s, branches[1..], x, y);
    }
  }

  lemma {:induction false} TimesHaveWidth(s: Text, node: Node, k: nat, x: Cursor, y: Cursor)
    requires DerivesTimes(s, node, k, x, y) && WidthOf(node).Some?
    ensures y.pos == x.pos + Rounds(k, WidthOf(node).value)
    decreases node, k + 1
  {
    if k > 0 {
      var m: Cursor :| Derives(s, node, x, m) && DerivesTimes(s, node, k - 1, m, y);
      MatchHasWidth(s, node, x, m);
      TimesHaveWidth(s, node, k - 1, m, y);
    }
  }
}
