/** Types and their canonical spelling. */
module TypeSpelling {
  import opened WhiteSpace
  import opened TypeScan
  import R = TypeRepr

  /** Items of tuples and parameters of functions may have labels. */
  datatype Type =
    | Named(name: string, args: seq<Type>)
    | Optional(base: Type)
    | Array(element: Type)
    | Dictionary(key: Type, value: Type)
    | Tuple(items: seq<Type>)
    | Function(params: seq<Type>, ret: Type)
    | Composition(members: seq<Type>)
    | Labelled(tag: string, base: Type)

  /** The shape of a parsed spelling without its text. */
  function ShapeOf(r: R.Repr): Type
    decreases r, 0
  {
    match r.kind
    case Named(name, args) => Named(name, ShapesOf(args))
    case Optional(base) => Optional(ShapeOf(base))
    case Array(element) => Array(ShapeOf(element))
    case Dictionary(key, value) => Dictionary(ShapeOf(key), ShapeOf(value))
    case Tuple(items) => Tuple(ShapesOf(items))
    case Function(params, ret) => Function(ShapesOf(params), ShapeOf(ret))
    case Composition(members) => Composition(ShapesOf(members))
  }

  function ShapesOf(rs: seq<R.Repr>): (r: seq<Type>)
    ensures |r| == |rs|
    decreases rs, 0
  {
    if rs == [] then [] else [ShapeOf(rs[0])] + ShapesOf(rs[1..])
  }

  // ----- spelling -----

  /** Types of lowest precedence stand in parentheses as a member or before a question mark. */
  predicate NeedsParens(t: Type) {
    t.Function? || t.Composition?
  }

  function Spell(t: Type): string
    decreases t, 0
  {
    match t
    case Named(name, args) => if args == [] then name else name + "<" + SpellList(args) + ">"
    case Optional(base) => SpellAtom(base) + "?"
    case Array(element) => "[" + Spell(element) + "]"
    case Dictionary(key, value) => "[" + (Spell(key) + ": " + Spell(value)) + "]"
    case Tuple(items) => "(" + SpellList(items) + ")"
    case Function(params, ret) => "(" + SpellList(params) + ")" + " -> " + Spell(ret)
    case Composition(members) => SpellMembers(members)
    case Labelled(tag, base) => tag + ": " + Spell(base)
  }

  function SpellAtom(t: Type): string
    decreases t, 1
  {
    if NeedsParens(t) then "(" + Spell(t) + ")" else Spell(t)
  }

  /** Separated by commas. */
  function SpellList(ts: seq<Type>): string
    decreases ts, 0
  {
    if ts == [] then "" else if |ts| == 1 then Spell(ts[0]) else Spell(ts[0]) + ", " + SpellList(ts[1..])
  }

  /** Separated by ampersands. */
  function SpellMembers(ts: seq<Type>): string
    decreases ts, 0
  {
    if ts == [] then "" else if |ts| == 1 then SpellAtom(ts[0]) else SpellAtom(ts[0]) + " & " + SpellMembers(ts[1..])
  }

  // ----- which types have a spelling -----

  predicate Plain(c: char) {
    !IsOpen(c) && !IsClose(c) && c != ',' && c != ':' && c != '&' && c != '?' && c != '-'
  }

  predicate GoodName(name: string) {
    Tight(name) && forall i | 0 <= i < |name| :: Plain(name[i])
  }

  /** Names and labels hold no delimiter or separator, a composition has at least two members, and
      labels stand nowhere but in tuples and parameter lists. */
  predicate Good(t: Type)
    decreases t, 0
  {
    match t
    case Named(name, args) => GoodName(name) && AllGood(args) && AllBare(args)
    case Optional(base) => Good(base) && !base.Labelled?
    case Array(element) => Good(element) && !element.Labelled?
    case Dictionary(key, value) => Good(key) && Good(value) && !key.Labelled? && !value.Labelled?
    case Tuple(items) => AllGood(items)
    case Function(params, ret) => AllGood(params) && Good(ret) && !ret.Labelled?
    case Composition(members) => |members| >= 2 && AllGood(members) && AllBare(members)
    case Labelled(tag, base) => GoodName(tag) && Good(base) && !base.Labelled?
  }

  predicate AllBare(ts: seq<Type>) {
    ts != [] ==> !ts[0].Labelled? && AllBare(ts[1..])
  }

  /** A type without its label. */
  function Bare(t: Type): Type {
    if t.Labelled? then t.base else t
  }

  function BareAll(ts: seq<Type>): (r: seq<Type>)
    ensures |r| == |ts|
  {
    if ts == [] then [] else [Bare(ts[0])] + BareAll(ts[1..])
  }

  predicate AllGood(ts: seq<Type>)
    decreases ts, 0
  {
    ts != [] ==> Good(ts[0]) && AllGood(ts[1..])
  }

  /** The name `Optional`, by itself or after a module's name. */
  predicate OptionalName(name: string) {
    name == "Optional" || exists k :: 0 <= k <= |name| && name[k..] == ".Optional"
  }

  /** What a type means to the parser: labels are gone, one type in parentheses is that type, and
      `Optional<T>` is `T?`. */
  function Normal(t: Type): Type
    decreases t, 0
  {
    match t
    case Named(name, args) =>
      if |args| == 1 && OptionalName(name) then Optional(Normal(args[0])) else Named(name, NormalAll(args))
    case Optional(base) => Optional(Normal(base))
    case Array(element) => Array(Normal(element))
    case Dictionary(key, value) => Dictionary(Normal(key), Normal(value))
    case Tuple(items) => if |items| == 1 then Normal(items[0]) else Tuple(NormalAll(items))
    case Function(params, ret) => Function(NormalAll(params), Normal(ret))
    case Composition(members) => Composition(NormalAll(members))
    case Labelled(_, base) => Normal(base)
  }

  function NormalAll(ts: seq<Type>): (r: seq<Type>)
    ensures |r| == |ts|
    decreases ts, 0
  {
    if ts == [] then [] else [Normal(ts[0])] + NormalAll(ts[1..])
  }

  /** How many arrows the spelling holds. */
  function Arrows(t: Type): nat
    decreases t, 0
  {
    match t
    case Named(_, args) => ArrowsIn(args)
    case Optional(base) => Arrows(base)
    case Array(element) => Arrows(element)
    case Dictionary(key, value) => Arrows(key) + Arrows(value)
    case Tuple(items) => ArrowsIn(items)
    case Function(params, ret) => ArrowsIn(params) + 1 + Arrows(ret)
    case Composition(members) => ArrowsIn(members)
    case Labelled(_, base) => Arrows(base)
  }

  function ArrowsIn(ts: seq<Type>): nat
    decreases ts, 0
  {
    if ts == [] then 0 else Arrows(ts[0]) + ArrowsIn(ts[1..])
  }

  /** No arrow stands inside square brackets or parentheses. */
  predicate Safe(t: Type)
    decreases t, 0
  {
    match t
    case Named(_, args) => AllSafe(args)
    case Optional(base) => SafeAtom(base)
    case Array(element) => Arrows(element) == 0
    case Dictionary(key, value) => Arrows(key) == 0 && Arrows(value) == 0
    case Tuple(items) => ArrowsIn(items) == 0
    case Function(params, ret) => ArrowsIn(params) == 0 && Safe(ret)
    case Composition(members) => AllSafeAtoms(members)
    case Labelled(_, base) => Safe(base)
  }

  predicate SafeAtom(t: Type)
    decreases t, 1
  {
    if NeedsParens(t) then Arrows(t) == 0 else Safe(t)
  }

  predicate AllSafe(ts: seq<Type>)
    decreases ts, 0
  {
    ts != [] ==> Safe(ts[0]) && AllSafe(ts[1..])
  }

  predicate AllSafeAtoms(ts: seq<Type>)
    decreases ts, 0
  {
    ts != [] ==> SafeAtom(ts[0]) && AllSafeAtoms(ts[1..])
  }

  lemma {:induction false} NoArrowsIsSafe(t: Type)
    ensures Arrows(t) == 0 ==> Safe(t) && SafeAtom(t)
    decreases t, 0
  {
    match t
    case Named(_, args) => NoArrowsAllSafe(args);
    case Optional(base) => NoArrowsIsSafe(base);
    case Composition(members) => NoArrowsAllSafe(members);
    case Labelled(_, base) => NoArrowsIsSafe(base);
    case _ =>
  }

  lemma {:induction false} NoArrowsAllSafe(ts: seq<Type>)
    ensures ArrowsIn(ts) == 0 ==> AllSafe(ts) && AllSafeAtoms(ts)
    decreases ts, 0
  {
    if ts != [] {
      NoArrowsIsSafe(ts[0]);
      NoArrowsAllSafe(ts[1..]);
    }
  }

  // ----- scanning concatenations -----

  /** A cut after this text does not break an arrow. */
  predicate Clean(s: string) {
    s == [] || s[|s| - 1] != '-'
  }

  lemma {:induction false} DepthOfTwo(a: string, b: string, d: int)
    requires Clean(a)
    ensures Depth(a + b, d) == Depth(b, Depth(a, d))
    decreases |a|
  {
    if a == [] {
      assert a + b == b;
    } else if ArrowFirst(a) {
      assert (a + b)[2..] == a[2..] + b;
      assert Clean(a[2..]);
      DepthOfTwo(a[2..], b, d);
    } else {
      assert (a + b)[1..] == a[1..] + b;
      assert Clean(a[1..]);
      DepthOfTwo(a[1..], b, d + Turn(a[0]));
    }
  }

  lemma {:induction false} HitsOfTwo(a: string, b: string, mark: Mark, d: int, at: nat)
    requires Clean(a)
    ensures Hits(a + b, mark, d, at) == Hits(a, mark, d, at) + Hits(b, mark, Depth(a, d), at + |a|)
    decreases |a|
  {
    var end := Depth(a, d);
    var later := Hits(b, mark, end, at + |a|);
    if a == [] {
      assert a + b == b && [] + later == later;
    } else if ArrowFirst(a) {
      var rest := a[2..];
      assert Clean(rest) && Depth(rest, d) == end;
      HitsOfTwo(rest, b, mark, d, at + 2);
      AfterArrow(a, b, mark, d, at, later);
    } else {
      var rest := a[1..];
      assert Clean(rest) && Depth(rest, d + Turn(a[0])) == end;
      HitsOfTwo(rest, b, mark, d + Turn(a[0]), at + 1);
      AfterChar(a, b, mark, d, at, later);
    }
  }

  lemma {:induction false} AfterArrow(a: string, b: string, mark: Mark, d: int, at: nat, later: seq<nat>)
    requires ArrowFirst(a) && Hits(a[2..] + b, mark, d, at + 2) == Hits(a[2..], mark, d, at + 2) + later
    ensures Hits(a + b, mark, d, at) == Hits(a, mark, d, at) + later
  {
    assert (a + b)[2..] == a[2..] + b;
  }

  lemma {:induction false} HitsChar(s: string, c: char, rest: string, mark: Mark, d: int, at: nat)
    requires s == [c] + rest && !ArrowFirst(s)
    ensures Hits(s, mark, d, at) == (if Stands(c, mark, d) then [at] else []) + Hits(rest, mark, d + Turn(c), at + 1)
  {
    assert s[1..] == rest;
  }

  lemma {:induction false} AfterChar(a: string, b: string, mark: Mark, d: int, at: nat, later: seq<nat>)
    requires a != [] && Clean(a) && !ArrowFirst(a)
    requires Hits(a[1..] + b, mark, d + Turn(a[0]), at + 1) == Hits(a[1..], mark, d + Turn(a[0]), at + 1) + later
    ensures Hits(a + b, mark, d, at) == Hits(a, mark, d, at) + later
  {
    assert a + b == [a[0]] + (a[1..] + b);
    HitsChar(a, a[0], a[1..], mark, d, at);
    HitsChar(a + b, a[0], a[1..] + b, mark, d, at);
    Regroup(if Stands(a[0], mark, d) then [at] else [], Hits(a[1..], mark, d + Turn(a[0]), at + 1), later);
  }

  lemma {:induction false} Regroup(x: seq<nat>, y: seq<nat>, z: seq<nat>)
    ensures x + (y + z) == x + y + z
  {
  }

  lemma {:induction false} RawOfTwo(a: string, b: string, d: int)
    ensures RawDepth(a + b, d) == RawDepth(b, RawDepth(a, d))
    ensures Touches(a + b, d) <==> Touches(a, d) || Touches(b, RawDepth(a, d))
    decreases |a|
  {
    if a == [] {
      assert a + b == b;
    } else {
      assert (a + b)[1..] == a[1..] + b;
      RawOfTwo(a[1..], b, d + Turn(a[0]));
    }
  }

  /** Coming down to zero goes through zero. */
  lemma {:induction false} ComingDown(s: string, d: int)
    requires d >= 1 && RawDepth(s, d) <= 0
    ensures Touches(s, d)
    decreases |s|
  {
    if s != [] && !(IsClose(s[0]) && d == 1) {
      ComingDown(s[1..], d + Turn(s[0]));
    }
  }

  // ----- what every spelling keeps -----

  /** A piece of text that a scan at depth `d` steps over: it comes back to the same depth and
      shows no separator, and no arrow unless it may, at depth zero. */
  ghost predicate Over(s: string, mark: Mark, d: int) {
    Clean(s) && Depth(s, d) == d && forall at: nat :: Hits(s, mark, d, at) == []
  }

  lemma {:induction false} OverTwo(a: string, b: string, mark: Mark, d: int)
    requires Over(a, mark, d) && Over(b, mark, d)
    ensures Over(a + b, mark, d)
  {
    DepthOfTwo(a, b, d);
    forall at: nat
      ensures Hits(a + b, mark, d, at) == []
    {
      HitsOfTwo(a, b, mark, d, at);
    }
  }

  lemma {:induction false} OverOne(c: char, mark: Mark, d: int)
    requires Turn(c) == 0 && c != '-' && !Stands(c, mark, d)
    ensures Over([c], mark, d)
  {
    assert [c][1..] == [];
  }

  lemma {:induction false} ScanOne(c: char, mark: Mark, d: int, at: nat)
    requires c != '-' && !Stands(c, mark, d)
    ensures Hits([c], mark, d, at) == [] && Depth([c], d) == d + Turn(c) && Clean([c])
  {
    assert [c][1..] == [];
  }

  /** Delimiters around text that is stepped over one level deeper. */
  lemma {:induction false} OverEnclosed(open: char, s: string, close: char, mark: Mark, d: int)
    requires IsOpen(open) && IsClose(close) && Over(s, mark, d + 1)
    ensures Over([open] + s + [close], mark, d)
  {
    DepthOfTwo([open] + s, [close], d);
    DepthOfTwo([open], s, d);
    ScanOne(open, mark, d, 0);
    ScanOne(close, mark, d + 1, 0);
    forall at: nat
      ensures Hits([open] + s + [close], mark, d, at) == []
    {
      HitsOfTwo([open] + s, [close], mark, d, at);
      HitsOfTwo([open], s, mark, d, at);
      ScanOne(open, mark, d, at);
      ScanOne(close, mark, d + 1, at + 1 + |s|);
    }
  }

  lemma {:induction false} OverName(name: string, mark: Mark, d: int)
    requires (forall i | 0 <= i < |name| :: Plain(name[i])) && (mark.Separator? ==> mark.c == ',' || mark.c == ':' || mark.c == '&')
    ensures Over(name, mark, d)
    decreases |name|
  {
    if name != [] {
      assert forall i | 0 <= i < |name[1..]| :: name[1..][i] == name[i + 1];
      OverName(name[1..], mark, d);
      OverOne(name[0], mark, d);
      OverTwo([name[0]], name[1..], mark, d);
      assert [name[0]] + name[1..] == name;
    } else {
      assert forall at: nat :: Hits(name, mark, d, at) == [];
    }
  }

  predicate Usual(mark: Mark) {
    mark.Arrow? || mark.c == ',' || mark.c == ':' || mark.c == '&'
  }

  /** The mark does not stand at the top level of the spelling. */
  predicate Hidden(t: Type, mark: Mark)
    decreases t
  {
    && (mark.Arrow? ==> !t.Function?) && (mark == Separator('&') ==> !NeedsParens(t))
    && (t.Labelled? ==> mark != Separator(':') && Hidden(t.base, mark))
  }

  lemma {:induction false} OverGlue(c: char, mark: Mark, d: int)
    requires Turn(c) == 0 && c != '-' && !Stands(c, mark, d) && Usual(mark)
    ensures Over([c] + " ", mark, d) && Over(" " + ([c] + " "), mark, d)
  {
    OverOne(c, mark, d);
    OverOne(' ', mark, d);
    OverTwo([c], " ", mark, d);
    OverTwo(" ", [c] + " ", mark, d);
  }

  lemma {:induction false} OverArrow(mark: Mark, d: int)
    requires Usual(mark) && (mark.Arrow? ==> d != 0)
    ensures Over(" -> ", mark, d)
  {
    OverOne(' ', mark, d);
    assert "->"[2..] == [];
    assert Over("->", mark, d);
    OverTwo(" ", "->", mark, d);
    OverTwo(" " + "->", " ", mark, d);
    assert " " + "->" + " " == " -> ";
  }

  lemma {:induction false} OverThree(a: string, b: string, c: string, mark: Mark, d: int)
    requires Over(a, mark, d) && Over(b, mark, d) && Over(c, mark, d)
    ensures Over(a + b + c, mark, d)
  {
    OverTwo(a, b, mark, d);
    OverTwo(a + b, c, mark, d);
  }

  /** Two texts with a comma, a colon or an ampersand between them. */
  lemma {:induction false} OverGlued(a: string, glue: string, b: string, mark: Mark, d: nat)
    requires Over(a, mark, d) && Over(b, mark, d) && Usual(mark)
    requires glue in {", ", ": ", " & "} && (d == 0 && mark.Separator? ==> mark.c !in glue)
    ensures Over(a + glue + b, mark, d)
  {
    if glue == ", " {
      OverGlue(',', mark, d);
      assert [','] + " " == glue;
    } else if glue == ": " {
      OverGlue(':', mark, d);
      assert [':'] + " " == glue;
    } else {
      OverGlue('&', mark, d);
      assert " " + (['&'] + " ") == glue;
    }
    OverThree(a, glue, b, mark, d);
  }

  lemma {:induction false} OverGeneric(name: string, inner: string, mark: Mark, d: int)
    requires Over(name, mark, d) && Over(inner, mark, d + 1)
    ensures Over(name + "<" + inner + ">", mark, d)
  {
    OverEnclosed('<', inner, '>', mark, d);
    OverTwo(name, "<" + inner + ">", mark, d);
    assert name + ("<" + inner + ">") == name + "<" + inner + ">";
  }

  lemma {:induction false} OverFunction(params: string, ret: string, mark: Mark, d: int)
    requires Over(params, mark, d + 1) && Over(ret, mark, d) && Usual(mark) && (mark.Arrow? ==> d != 0)
    ensures Over("(" + params + ")" + " -> " + ret, mark, d)
  {
    OverEnclosed('(', params, ')', mark, d);
    OverArrow(mark, d);
    OverThree("(" + params + ")", " -> ", ret, mark, d);
  }

  lemma {:induction false} OverMarked(base: string, mark: Mark, d: int)
    requires Over(base, mark, d) && Usual(mark)
    ensures Over(base + "?", mark, d)
  {
    OverOne('?', mark, d);
    OverTwo(base, "?", mark, d);
  }

  lemma {:induction false} SpelledOver(t: Type, mark: Mark, d: nat)
    requires Good(t) && Usual(mark) && (d == 0 ==> Hidden(t, mark))
    ensures Over(Spell(t), mark, d)
    decreases t, 0
  {
    match t
    case Named(name, args) =>
      OverName(name, mark, d);
      if args != [] {
        SpelledOverList(args, mark, d + 1);
        OverGeneric(name, SpellList(args), mark, d);
      }
    case Optional(base) =>
      SpelledOverAtom(base, mark, d);
      OverMarked(SpellAtom(base), mark, d);
    case Array(element) =>
      SpelledOver(element, mark, d + 1);
      OverEnclosed('[', Spell(element), ']', mark, d);
    case Dictionary(key, value) =>
      SpelledOver(key, mark, d + 1);
      SpelledOver(value, mark, d + 1);
      OverGlued(Spell(key), ": ", Spell(value), mark, d + 1);
      OverEnclosed('[', Spell(key) + ": " + Spell(value), ']', mark, d);
    case Tuple(items) =>
      SpelledOverList(items, mark, d + 1);
      OverEnclosed('(', SpellList(items), ')', mark, d);
    case Function(params, ret) =>
      SpelledOverList(params, mark, d + 1);
      SpelledOver(ret, mark, d);
      OverFunction(SpellList(params), Spell(ret), mark, d);
    case Composition(members) => SpelledOverMembers(members, mark, d);
    case Labelled(tag, base) =>
      OverName(tag, mark, d);
      SpelledOver(base, mark, d);
      OverGlued(tag, ": ", Spell(base), mark, d);
  }

  lemma {:induction false} SpelledOverAtom(t: Type, mark: Mark, d: nat)
    requires Good(t) && !t.Labelled? && Usual(mark)
    ensures Over(SpellAtom(t), mark, d)
    decreases t, 1
  {
    if NeedsParens(t) {
      SpelledOver(t, mark, d + 1);
      OverEnclosed('(', Spell(t), ')', mark, d);
    } else {
      SpelledOver(t, mark, d);
    }
  }

  lemma {:induction false} SpelledOverList(ts: seq<Type>, mark: Mark, d: nat)
    requires AllGood(ts) && Usual(mark) && d > 0
    ensures Over(SpellList(ts), mark, d)
    decreases ts, 0
  {
    if ts == [] {
      assert forall at: nat :: Hits("", mark, d, at) == [];
    } else {
      SpelledOver(ts[0], mark, d);
      if |ts| > 1 {
        SpelledOverList(ts[1..], mark, d);
        OverGlued(Spell(ts[0]), ", ", SpellList(ts[1..]), mark, d);
      }
    }
  }

  lemma {:induction false} SpelledOverMembers(ts: seq<Type>, mark: Mark, d: nat)
    requires AllGood(ts) && AllBare(ts) && Usual(mark) && (d == 0 ==> mark != Separator('&'))
    ensures Over(SpellMembers(ts), mark, d)
    decreases ts, 0
  {
    if ts == [] {
      assert forall at: nat :: Hits("", mark, d, at) == [];
    } else {
      SpelledOverAtom(ts[0], mark, d);
      if |ts| > 1 {
        SpelledOverMembers(ts[1..], mark, d);
        OverGlued(SpellAtom(ts[0]), " & ", SpellMembers(ts[1..]), mark, d);
      }
    }
  }

  // ----- delimiters as the balance check counts them -----

  /** The balance check ends `n` lower over this text, and stays above zero when `n` is zero. */
  ghost predicate Falls(s: string, n: nat) {
    forall d: int :: d >= 1 ==> RawDepth(s, d) == d - n && (n == 0 ==> !Touches(s, d))
  }

  lemma {:induction false} FallsTwo(a: string, m: nat, b: string, n: nat)
    requires Falls(a, m) && Falls(b, n)
    ensures Falls(a + b, m + n)
  {
    forall d: int | d >= 1
      ensures RawDepth(a + b, d) == d - (m + n) && (m + n == 0 ==> !Touches(a + b, d))
    {
      RawOfTwo(a, b, d);
      RawShift(b, d - m, d);
    }
  }

  /** The change of depth does not depend on the depth. */
  lemma {:induction false} RawShift(s: string, d: int, e: int)
    ensures RawDepth(s, d) - d == RawDepth(s, e) - e
    decreases |s|
  {
    if s != [] {
      RawShift(s[1..], d + Turn(s[0]), e + Turn(s[0]));
    }
  }

  lemma {:induction false} FallsOne(c: char)
    requires Turn(c) == 0
    ensures Falls([c], 0)
  {
    forall d: int | d >= 1
      ensures RawDepth([c], d) == d && !Touches([c], d)
    {
      assert [c][1..] == [];
    }
  }

  lemma {:induction false} FallsEnclosed(open: char, s: string, n: nat, close: char)
    requires IsOpen(open) && IsClose(close) && Falls(s, n)
    ensures Falls([open] + s + [close], n)
  {
    var t := [open] + s + [close];
    assert t == [open] + (s + [close]) && t[1..] == s + [close];
    forall d: int | d >= 1
      ensures RawDepth(t, d) == d - n && (n == 0 ==> !Touches(t, d))
    {
      RawOfTwo(s, [close], d + 1);
      assert RawDepth(s, d + 1) == d + 1 - n;
      assert [close][1..] == [];
    }
  }

  lemma {:induction false} FallsName(name: string)
    requires forall i | 0 <= i < |name| :: Plain(name[i])
    ensures Falls(name, 0)
    decreases |name|
  {
    if name != [] {
      assert forall i | 0 <= i < |name[1..]| :: name[1..][i] == name[i + 1];
      FallsName(name[1..]);
      FallsOne(name[0]);
      FallsTwo([name[0]], 0, name[1..], 0);
      assert [name[0]] + name[1..] == name;
    } else {
      assert Falls(name, 0);
    }
  }

  lemma {:induction false} FallsGlued(a: string, m: nat, glue: string, b: string, n: nat)
    requires Falls(a, m) && Falls(b, n) && glue in {", ", ": ", " & "}
    ensures Falls(a + glue + b, m + n)
  {
    assert Falls(glue, 0) by {
      FallsOne(glue[0]);
      FallsOne(glue[1]);
      FallsTwo([glue[0]], 0, [glue[1]], 0);
      if |glue| == 3 {
        FallsOne(glue[2]);
        FallsTwo([glue[0]] + [glue[1]], 0, [glue[2]], 0);
        assert glue == [glue[0]] + [glue[1]] + [glue[2]];
      } else {
        assert glue == [glue[0]] + [glue[1]];
      }
    }
    FallsTwo(a, m, glue, 0);
    FallsTwo(a + glue, m, b, n);
  }

  lemma {:induction false} FallsArrow()
    ensures Falls(" -> ", 1)
  {
    forall d: int | d >= 1
      ensures RawDepth(" -> ", d) == d - 1
    {
      var s := " -> ";
      assert s[1..] == "-> " && s[1..][1..] == "> " && s[1..][1..][1..] == " " && s[1..][1..][1..][1..] == "";
    }
  }

  lemma {:induction false} FallsThree(a: string, m: nat, b: string, n: nat, c: string, k: nat)
    requires Falls(a, m) && Falls(b, n) && Falls(c, k)
    ensures Falls(a + b + c, m + n + k)
  {
    FallsTwo(a, m, b, n);
    FallsTwo(a + b, m + n, c, k);
  }

  lemma {:induction false} SpelledFalls(t: Type)
    requires Good(t)
    ensures Falls(Spell(t), Arrows(t))
    decreases t, 0
  {
    match t
    case Named(name, args) =>
      FallsName(name);
      if args != [] {
        SpelledListFalls(args);
        FallsEnclosed('<', SpellList(args), ArrowsIn(args), '>');
        FallsTwo(name, 0, "<" + SpellList(args) + ">", ArrowsIn(args));
        assert name + ("<" + SpellList(args) + ">") == Spell(t);
      }
    case Optional(base) =>
      SpelledAtomFalls(base);
      FallsOne('?');
      FallsTwo(SpellAtom(base), Arrows(base), "?", 0);
    case Array(element) =>
      SpelledFalls(element);
      FallsEnclosed('[', Spell(element), Arrows(element), ']');
    case Dictionary(key, value) =>
      SpelledFalls(key);
      SpelledFalls(value);
      FallsGlued(Spell(key), Arrows(key), ": ", Spell(value), Arrows(value));
      FallsEnclosed('[', Spell(key) + ": " + Spell(value), Arrows(t), ']');
    case Tuple(items) =>
      SpelledListFalls(items);
      FallsEnclosed('(', SpellList(items), ArrowsIn(items), ')');
    case Function(params, ret) =>
      SpelledListFalls(params);
      FallsEnclosed('(', SpellList(params), ArrowsIn(params), ')');
      FallsArrow();
      SpelledFalls(ret);
      FallsThree("(" + SpellList(params) + ")", ArrowsIn(params), " -> ", 1, Spell(ret), Arrows(ret));
    case Composition(members) => SpelledMembersFall(members);
    case Labelled(tag, base) =>
      FallsName(tag);
      SpelledFalls(base);
      FallsGlued(tag, 0, ": ", Spell(base), Arrows(base));
  }

  lemma {:induction false} SpelledAtomFalls(t: Type)
    requires Good(t)
    ensures Falls(SpellAtom(t), Arrows(t))
    decreases t, 1
  {
    SpelledFalls(t);
    if NeedsParens(t) {
      FallsEnclosed('(', Spell(t), Arrows(t), ')');
    }
  }

  lemma {:induction false} SpelledListFalls(ts: seq<Type>)
    requires AllGood(ts)
    ensures Falls(SpellList(ts), ArrowsIn(ts))
    decreases ts, 0
  {
    if ts == [] {
      assert Falls("", 0);
    } else {
      SpelledFalls(ts[0]);
      if |ts| > 1 {
        SpelledListFalls(ts[1..]);
        FallsGlued(Spell(ts[0]), Arrows(ts[0]), ", ", SpellList(ts[1..]), ArrowsIn(ts[1..]));
      }
    }
  }

  lemma {:induction false} SpelledMembersFall(ts: seq<Type>)
    requires AllGood(ts)
    ensures Falls(SpellMembers(ts), ArrowsIn(ts))
    decreases ts, 0
  {
    if ts == [] {
      assert Falls("", 0);
    } else {
      SpelledAtomFalls(ts[0]);
      if |ts| > 1 {
        SpelledMembersFall(ts[1..]);
        FallsGlued(SpellAtom(ts[0]), Arrows(ts[0]), " & ", SpellMembers(ts[1..]), ArrowsIn(ts[1..]));
      }
    }
  }

  // ----- the ends of a spelling -----

  lemma {:induction false} TightTwo(a: string, b: string)
    requires a != [] && b != [] && !IsSpace(a[0]) && !IsSpace(b[|b| - 1])
    ensures Tight(a + b) && (a + b)[0] == a[0] && (a + b)[|a + b| - 1] == b[|b| - 1]
  {
  }

  /** The last character tells optionals, and names, apart from what ends in a bracket. */
  predicate EndsLike(t: Type, last: char) {
    match t
    case Named(_, args) => if args == [] then Plain(last) else last == '>'
    case Optional(_) => last == '?'
    case Array(_) => last == ']'
    case Dictionary(_, _) => last == ']'
    case Tuple(_) => last == ')'
    case _ => true
  }

  lemma {:induction false} SpelledTight(t: Type)
    requires Good(t)
    ensures Tight(Spell(t)) && EndsLike(t, Spell(t)[|Spell(t)| - 1])
    ensures t.Named? ==> Plain(Spell(t)[0])
    decreases t, 0
  {
    match t
    case Named(name, args) =>
      if args != [] {
        TightTwo(name + "<" + SpellList(args), ">");
      }
    case Optional(base) =>
      SpelledTightAtom(base);
      TightTwo(SpellAtom(base), "?");
    case Array(element) => TightTwo("[" + Spell(element), "]");
    case Dictionary(key, value) => TightTwo("[" + (Spell(key) + ": " + Spell(value)), "]");
    case Tuple(items) => TightTwo("(" + SpellList(items), ")");
    case Function(params, ret) =>
      SpelledTight(ret);
      TightTwo("(" + SpellList(params) + ")" + " -> ", Spell(ret));
    case Composition(members) => SpelledTightMembers(members);
    case Labelled(tag, base) =>
      SpelledTight(base);
      TightTwo(tag + ": ", Spell(base));
  }

  lemma {:induction false} SpelledTightAtom(t: Type)
    requires Good(t)
    ensures Tight(SpellAtom(t))
    decreases t, 1
  {
    if NeedsParens(t) {
      TightTwo("(" + Spell(t), ")");
    } else {
      SpelledTight(t);
    }
  }

  lemma {:induction false} SpelledTightMembers(ts: seq<Type>)
    requires AllGood(ts) && ts != []
    ensures Tight(SpellMembers(ts))
    decreases ts, 0
  {
    SpelledTightAtom(ts[0]);
    if |ts| > 1 {
      SpelledTightMembers(ts[1..]);
      TightTwo(SpellAtom(ts[0]) + " & ", SpellMembers(ts[1..]));
    }
  }
}
