/** The shape of a written type. */
module TypeRepr {
  import opened Options
  import opened TypeScan

  /** A parsed spelling: the trimmed text it spans and its shape. */
  datatype Repr = Repr(text: string, kind: Kind)

  datatype Kind =
    | Named(name: string, args: seq<Repr>)
    | Optional(base: Repr)
    | Array(element: Repr)
    | Dictionary(key: Repr, value: Repr)
    | Tuple(items: seq<Repr>)
    | Function(params: seq<Repr>, ret: Repr)
    | Composition(members: seq<Repr>)

  predicate AllShorter(parts: seq<string>, bound: nat) {
    parts != [] ==> |parts[0]| < bound && AllShorter(parts[1..], bound)
  }

  /** The parts between the separators, each shorter than a text that is longer than `s` or holds a
      separator. */
  lemma {:induction false} PartsShorter(s: string, seps: seq<nat>, start: nat, bound: nat)
    requires start <= |s| && Within(seps, start, |s|, 1) && |s| <= bound && (|s| < bound || seps != [] || start > 0)
    ensures AllShorter(SplitAt(s, seps, start), bound)
    decreases |seps|
  {
    if seps != [] {
      PartsShorter(s, seps[1..], seps[0] + 1, bound);
    }
  }

  function SplitCommas(s: string): (r: seq<string>)
    ensures r != []
  {
    SplitAt(s, TopLevel(s, ','), 0)
  }

  lemma {:induction false} CommasShorter(s: string, bound: nat)
    requires |s| < bound
    ensures AllShorter(SplitCommas(s), bound)
  {
    PartsShorter(s, TopLevel(s, ','), 0, bound);
  }

  function StripTupleLabel(part: string): (r: string)
    ensures |r| <= |part|
  {
    var colons := TopLevel(part, ':');
    if colons == [] then Trim(part) else Trim(part[colons[0] + 1..])
  }

  function StripLabels(parts: seq<string>): (r: seq<string>)
    ensures |r| == |parts|
  {
    if parts == [] then [] else [StripTupleLabel(parts[0])] + StripLabels(parts[1..])
  }

  lemma {:induction false} StrippedShorter(parts: seq<string>, bound: nat)
    requires AllShorter(parts, bound)
    ensures AllShorter(StripLabels(parts), bound)
    decreases |parts|
  {
    if parts != [] {
      StrippedShorter(parts[1..], bound);
      assert StripLabels(parts)[1..] == StripLabels(parts[1..]);
    }
  }

  function IndexOf(s: string, c: char): (r: Option<nat>)
    ensures r.Some? ==> r.value < |s| && s[r.value] == c
  {
    if s == [] then None
    else if s[0] == c then Some(0)
    else match IndexOf(s[1..], c) case Some(i) => Some(i + 1) case None => None
  }

  predicate EndsWith(s: string, tail: string) {
    |s| >= |tail| && s[|s| - |tail|..] == tail
  }

  predicate IsOptionalName(name: string) {
    name == "Optional" || EndsWith(name, ".Optional")
  }

  /** Parsing never fails: what has no other shape is a name. */
  function Parse(spelling: string): Repr
    decreases |spelling|, 2
  {
    var t := Trim(spelling);
    var arrow := ArrowPos(t);
    var amps := TopLevel(t, '&');
    if arrow.Some? then
      Repr(t, Function(ParseParams(Trim(t[..arrow.value]), |t|), Parse(Trim(t[arrow.value + 2..]))))
    else if amps != [] then
      PartsShorter(t, amps, 0, |t|);
      Repr(t, Composition(ParseAll(SplitAt(t, amps, 0), |t|)))
    else if EndsWith(t, "?") then
      Repr(t, Optional(Parse(TrimEnd(t[..|t| - 1]))))
    else if DelimitedInner(t, '[', ']').Some? then
      ParseBracketed(t, DelimitedInner(t, '[', ']').value)
    else if DelimitedInner(t, '(', ')').Some? then
      ParseGroup(t, DelimitedInner(t, '(', ')').value)
    else
      ParseNamed(t)
  }

  /** Each part on its own; `bound` only serves termination. */
  function ParseAll(parts: seq<string>, bound: nat): (r: seq<Repr>)
    requires AllShorter(parts, bound)
    ensures |r| == |parts|
    decreases bound, 0, |parts|
  {
    if parts == [] then [] else [Parse(parts[0])] + ParseAll(parts[1..], bound)
  }

  function ParseParams(s: string, bound: nat): seq<Repr>
    requires |s| < bound
    decreases bound, 1
  {
    match DelimitedInner(s, '(', ')')
    case Some(inner) =>
      if Trim(inner) == [] then []
      else
        CommasShorter(inner, bound);
        StrippedShorter(SplitCommas(inner), bound);
        ParseAll(StripLabels(SplitCommas(inner)), bound)
    case None => [Parse(s)]
  }

  function ParseBracketed(t: string, inner: string): Repr
    requires |inner| < |t|
    decreases |t|, 1
  {
    var colons := TopLevel(inner, ':');
    if colons != [] then
      Repr(t, Dictionary(Parse(Trim(inner[..colons[0]])), Parse(Trim(inner[colons[0] + 1..]))))
    else
      Repr(t, Array(Parse(Trim(inner))))
  }

  /** A tuple, or one type in parentheses, which is that type. */
  function ParseGroup(t: string, inner: string): Repr
    requires |inner| < |t|
    decreases |t|, 1
  {
    if Trim(inner) == [] then Repr(t, Tuple([]))
    else
      var parts := SplitCommas(inner);
      CommasShorter(inner, |t|);
      StrippedShorter(parts, |t|);
      if |parts| == 1 then Parse(StripTupleLabel(parts[0])) else Repr(t, Tuple(ParseAll(StripLabels(parts), |t|)))
  }

  function NameOf(s: string): string {
    var trimmed := TrimEnd(s);
    var open := IndexOf(trimmed, '<');
    if EndsWith(trimmed, ">") && open.Some? then Trim(s[..open.value]) else Trim(s)
  }

  /** The text of the generic arguments, if there is a list. */
  function ArgsOf(s: string): (r: Option<string>)
    ensures r.Some? ==> |r.value| < |s|
  {
    var trimmed := TrimEnd(s);
    var open := IndexOf(trimmed, '<');
    if EndsWith(trimmed, ">") && open.Some? then Some(s[open.value + 1..|trimmed| - 1]) else None
  }

  /** A name, possibly generic; `Optional` of one argument is the optional type. */
  function ParseNamed(t: string): Repr
    decreases |t|, 1
  {
    var args := match ArgsOf(t)
                case None => []
                case Some(inner) => (CommasShorter(inner, |t|); ParseAll(SplitCommas(inner), |t|));
    if |args| == 1 && IsOptionalName(NameOf(t)) then Repr(t, Optional(args[0])) else Repr(t, Named(NameOf(t), args))
  }
}
