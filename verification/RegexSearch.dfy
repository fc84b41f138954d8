/** Searching with a compiled pattern: leftmost match, all matches, anchored matches. */
module RegexSearch {
  import opened Options
  import RegexGrammar
  import RegexParser
  import RegexPattern
  import opened RegexSyntax
  import opened RegexProgram
  import opened RegexCompiler
  import opened RegexExec
  import opened RegexTermination
  import opened RegexLanguage
  import opened RegexGuard
  import opened RegexOrdered
  import opened RegexPriority
  import opened RegexWays
  import opened RegexFirstWay
  import opened RegexWidth

  datatype Span = Span(start: nat, end: nat)

  /** The span of every group, `None` for a group that did not take part. */
  datatype Captures = Captures(groups: seq<Option<Span>>)

  function GroupOf(saves: Saves, g: nat): Option<Span>
    requires 2 * g + 1 < |saves|
  {
    match (saves[2 * g], saves[2 * g + 1])
    case (Some(a), Some(b)) => Some(Span(a, b))
    case _ => None
  }

  function CapturesOf(saves: Saves, groups: nat): Captures
    requires |saves| == 2 * groups
  {
    Captures(seq(groups, g requires 0 <= g < groups => GroupOf(saves, g)))
  }

  function Blank(groups: nat): Saves {
    seq(2 * groups, _ => None)
  }

  // ----- what a search promises -----

  /** A match of the pattern can start at `pos`. */
  ghost predicate Starts(s: Text, ast: Node, groups: nat, pos: nat) {
    MatchesAt(s, ast, pos, Blank(groups))
  }

  /** `m` are the captures of the outcome. */
  ghost predicate Captured(out: Outcome, groups: nat, m: Captures) {
    out.Matched? && |out.saves| == 2 * groups && m == CapturesOf(out.saves, groups)
  }

  /** `m` are the captures of some derivation from `x`. */
  ghost predicate Derived(s: Text, ast: Node, groups: nat, x: Cursor, m: Captures)
    requires groups > 0
  {
    exists y: Cursor :: |y.saves| == 2 * groups && Derives(s, ast, x.Record(0), y) && m == CapturesOf(y.Record(1).saves, groups)
  }

  /** `m` is a match starting at `m`'s own start: the captures of some derivation, those of the first
      way across a guarded pattern, and those of the first result in priority order when unbounded
      repeats consume. */
  ghost predicate Genuine(s: Text, ast: Node, groups: nat, m: Captures) {
    && |m.groups| == groups > 0 && m.groups[0].Some?
    && var x := Cursor(m.groups[0].value.start, Blank(groups));
       && x.pos <= |s.chars|
       && Derived(s, ast, groups, x, m)
       && (Guarded(ast) ==> Captured(FirstWay(s, ast, x), groups, m))
       && (LoopsConsume(ast) ==> Captured(FirstResult(s, ast, x), groups, m))
  }

  ghost predicate NoStart(s: Text, ast: Node, groups: nat, from: nat, to: nat) {
    forall q: nat | from <= q < to :: !Starts(s, ast, groups, q)
  }

  ghost predicate Leftmost(s: Text, ast: Node, groups: nat, from: nat, m: Captures) {
    && Genuine(s, ast, groups, m)
    && from <= m.groups[0].value.start
    && NoStart(s, ast, groups, from, m.groups[0].value.start)
  }

  /** Every group of a match is ordered and inside the whole match, and never half set. */
  lemma {:induction false} GroupsInside(s: Text, ast: Node, groups: nat, m: Captures)
    requires Genuine(s, ast, groups, m) && WellFormed(ast, groups)
    ensures var whole := m.groups[0].value;
            && whole.start <= whole.end <= |s.chars|
            && forall g: nat | g < groups && m.groups[g].Some? ::
                 whole.start <= m.groups[g].value.start <= m.groups[g].value.end <= whole.end
  {
    var start := m.groups[0].value.start;
    var x := Cursor(start, Blank(groups)).Record(0);
    var y: Cursor :| |y.saves| == 2 * groups && Derives(s, ast, x, y) && m == CapturesOf(y.Record(1).saves, groups);
    DerivationIsSound(s, ast, groups, x, y);
    forall g: nat | g < groups && m.groups[g].Some?
      ensures start <= m.groups[g].value.start <= m.groups[g].value.end <= y.pos
    {
      assert GroupKept(g, x, y) && GroupKept(0, x, y);
    }
    assert GroupKept(0, x, y);
  }

  /** Where the search goes on after a match: past it, or one character on when it is empty. */
  function Next(m: Captures): nat
    requires |m.groups| > 0 && m.groups[0].Some?
  {
    var Span(s, e) := m.groups[0].value;
    if e > s then e else e + 1
  }

  /** Each match is the leftmost one from where its predecessor ends, and none is left over. */
  ghost predicate Chain(s: Text, ast: Node, groups: nat, from: nat, ms: seq<Captures>)
    decreases |ms|
  {
    if ms == [] then NoStart(s, ast, groups, from, |s.chars| + 1)
    else Leftmost(s, ast, groups, from, ms[0]) && Chain(s, ast, groups, Next(ms[0]), ms[1..])
  }

  ghost predicate Links(s: Text, ast: Node, groups: nat, from: nat, ms: seq<Captures>, to: nat)
    decreases |ms|
  {
    if ms == [] then from == to
    else Leftmost(s, ast, groups, from, ms[0]) && Links(s, ast, groups, Next(ms[0]), ms[1..], to)
  }

  lemma {:induction false} AddLink(s: Text, ast: Node, groups: nat, from: nat, ms: seq<Captures>, to: nat, m: Captures)
    requires Links(s, ast, groups, from, ms, to) && Leftmost(s, ast, groups, to, m)
    ensures Links(s, ast, groups, from, ms + [m], Next(m))
    decreases |ms|
  {
    if ms == [] {
      assert ms + [m] == [m] && [m][1..] == [];
    } else {
      var all, rest := ms + [m], ms[1..];
      assert all[0] == ms[0] && all[1..] == rest + [m];
      AddLink(s, ast, groups, Next(ms[0]), rest, to, m);
      assert Leftmost(s, ast, groups, from, all[0]) && Links(s, ast, groups, Next(all[0]), all[1..], Next(m));
    }
  }

  lemma {:induction false} CloseChain(s: Text, ast: Node, groups: nat, from: nat, ms: seq<Captures>, to: nat)
    requires Links(s, ast, groups, from, ms, to) && NoStart(s, ast, groups, to, |s.chars| + 1)
    ensures Chain(s, ast, groups, from, ms)
    decreases |ms|
  {
    if ms != [] {
      CloseChain(s, ast, groups, Next(ms[0]), ms[1..], to);
    }
  }

  lemma {:induction false} FirstLink(s: Text, ast: Node, groups: nat, from: nat, ms: seq<Captures>)
    requires Chain(s, ast, groups, from, ms) && ms != []
    ensures Genuine(s, ast, groups, ms[0]) && from <= ms[0].groups[0].value.start
    ensures Chain(s, ast, groups, Next(ms[0]), ms[1..])
  {
  }

  /** The `i`th match of a chain, and what is left after it. */
  lemma {:induction false} LinkAt(s: Text, ast: Node, groups: nat, from: nat, ms: seq<Captures>, i: nat, m: Captures)
    requires Chain(s, ast, groups, from, ms) && i < |ms| && m == ms[i] && WellFormed(ast, groups)
    ensures Genuine(s, ast, groups, m) && from <= m.groups[0].value.start
    ensures Chain(s, ast, groups, Next(m), ms[i + 1..])
    decreases i
  {
    FirstLink(s, ast, groups, from, ms);
    if i > 0 {
      NextIsPast(s, ast, groups, ms[0]);
      LinkAt(s, ast, groups, Next(ms[0]), ms[1..], i - 1, m);
      assert ms[1..][i..] == ms[i + 1..];
    }
  }

  /** Matches found one after another increase and do not overlap. */
  lemma {:induction false} ChainIncreases(s: Text, ast: Node, groups: nat, from: nat, ms: seq<Captures>, i: nat, j: nat)
    requires Chain(s, ast, groups, from, ms) && i < j < |ms| && WellFormed(ast, groups)
    ensures Genuine(s, ast, groups, ms[i]) && Genuine(s, ast, groups, ms[j])
    ensures ms[i].groups[0].value.end <= ms[j].groups[0].value.start
    ensures ms[i].groups[0].value.start < ms[j].groups[0].value.start
  {
    var m, n, rest := ms[i], ms[j], ms[i + 1..];
    assert rest[j - i - 1] == n;
    LinkAt(s, ast, groups, from, ms, i, m);
    LinkAt(s, ast, groups, Next(m), rest, j - i - 1, n);
    NextIsPast(s, ast, groups, m);
  }

  lemma {:induction false} NextIsPast(s: Text, ast: Node, groups: nat, m: Captures)
    requires Genuine(s, ast, groups, m) && WellFormed(ast, groups)
    ensures m.groups[0].value.end <= Next(m) && m.groups[0].value.start < Next(m)
  {
    GroupsInside(s, ast, groups, m);
  }

  /** Every position where a match can start begins a match that was found or lies inside one. */
  lemma {:induction false} ChainIsComplete(s: Text, ast: Node, groups: nat, from: nat, ms: seq<Captures>, q: nat)
    returns (i: nat)
    requires Chain(s, ast, groups, from, ms) && from <= q <= |s.chars| && Starts(s, ast, groups, q) && WellFormed(ast, groups)
    ensures i < |ms| && Genuine(s, ast, groups, ms[i])
    ensures ms[i].groups[0].value.start == q || ms[i].groups[0].value.start < q < ms[i].groups[0].value.end
    decreases |ms|
  {
    GroupsInside(s, ast, groups, ms[0]);
    if q < Next(ms[0]) {
      i := 0;
    } else {
      i := ChainIsComplete(s, ast, groups, Next(ms[0]), ms[1..], q);
      i := i + 1;
    }
  }

  // ----- single attempts -----

  /** Some match from the start of the text, whatever its priority, ends at its end. */
  ghost predicate SomeSpans(s: Text, ast: Node, groups: nat) {
    exists y: Cursor :: Derives(s, ast, Cursor(0, Blank(groups)).Record(0), y) && y.pos == |s.chars|
  }

  lemma {:induction false} SomeSpansMeans(s: Text, ast: Node, groups: nat, m: Option<Captures>)
    requires groups > 0 && WellFormed(ast, groups)
    requires m.Some? <==> Starts(s, ast, groups, 0)
    requires m.Some? ==> Genuine(s, ast, groups, m.value) && m.value.groups[0].value.start == 0
    ensures WidthOf(ast).Some? ==>
              (SomeSpans(s, ast, groups) <==> m.Some? && m.value.groups[0] == Some(Span(0, |s.chars|)))
  {
    var x := Cursor(0, Blank(groups)).Record(0);
    if WidthOf(ast).Some? && m.Some? {
      var y: Cursor :| |y.saves| == 2 * groups && Derives(s, ast, x, y) && m.value == CapturesOf(y.Record(1).saves, groups);
      MatchHasWidth(s, ast, x, y);
      DerivationIsSound(s, ast, groups, x, y);
      assert GroupKept(0, x, y);
      forall z: Cursor | Derives(s, ast, x, z)
        ensures z.pos == y.pos
      {
        MatchHasWidth(s, ast, x, z);
      }
    }
  }

  // ----- the engine -----

  class Regex {
    var prog: Program
    var groupCount: nat
    ghost var ast: Node

    ghost predicate Valid()
      reads this
    {
      groupCount > 0 && WellFormed(ast, groupCount) && Compiled(prog, ast)
    }

    constructor (ast: Node, groups: nat)
      requires groups > 0 && WellFormed(ast, groups)
      ensures Valid() && this.ast == ast && groupCount == groups
    {
      var compiler := new Compiler();
      compiler.CompileRegex(ast, groups);
      prog := compiler.prog;
      groupCount := groups;
      this.ast := ast;
    }

    /** Parses and compiles a pattern; it fails exactly when the pattern does not parse. */
    static method Compile(pattern: string) returns (r: Result<Regex, RegexGrammar.Error>)
      ensures match RegexGrammar.ParsePattern(pattern)
              case Err(e) => r == Err(e)
              case Ok(p) => r.Ok? && fresh(r.value) && r.value.Valid() && r.value.ast == p.ast && r.value.groupCount == p.groupCount
    {
      var parsed := RegexParser.ParsePattern(pattern);
      if parsed.Err? {
        return Err(parsed.error);
      }
      RegexPattern.ParsedIsWellFormed(pattern);
      var regex := new Regex(parsed.value.ast, parsed.value.groupCount);
      return Ok(regex);
    }

    /** One anchored attempt with fresh capture slots. */
    method TryAt(s: Text, start: nat) returns (r: Option<Captures>)
      requires Valid() && Guarded(ast) && start <= |s.chars|
      ensures r.Some? <==> Starts(s, ast, groupCount, start)
      ensures r.Some? ==> Genuine(s, ast, groupCount, r.value) && r.value.groups[0].value.start == start
    {
      var saves := new Option<nat>[2 * groupCount](_ => None);
      assert saves[..] == Blank(groupCount);
      ghost var fuel := GuardedHalts(prog, s, ast, groupCount, start, Blank(groupCount));
      RunDecidesLanguage(prog, s, ast, groupCount, fuel, start, Blank(groupCount));
      var matched := Exec(prog, s, start, saves, fuel);
      if matched {
        r := Some(CapturesOf(saves[..], groupCount));
        MatchIsGenuine(prog, s, ast, groupCount, fuel, start);
      } else {
        r := None;
      }
    }

    method FindAt(s: Text, from: nat) returns (r: Option<Captures>)
      requires Valid() && Guarded(ast)
      ensures r.None? ==> NoStart(s, ast, groupCount, from, |s.chars| + 1)
      ensures r.Some? ==> Leftmost(s, ast, groupCount, from, r.value)
    {
      var start := from;
      while start <= |s.chars|
        invariant from <= start
        invariant NoStart(s, ast, groupCount, from, start)
      {
        r := TryAt(s, start);
        if r.Some? {
          return;
        }
        start := start + 1;
      }
      r := None;
    }

    method FindAll(s: Text) returns (ms: seq<Captures>)
      requires Valid() && Guarded(ast)
      ensures Chain(s, ast, groupCount, 0, ms)
    {
      ms := [];
      var from := 0;
      while from <= |s.chars|
        invariant Links(s, ast, groupCount, 0, ms, from)
        decreases |s.chars| + 1 - from
      {
        var found := FindAt(s, from);
        if found.None? {
          break;
        }
        GroupsInside(s, ast, groupCount, found.value);
        AddLink(s, ast, groupCount, 0, ms, from, found.value);
        ms := ms + [found.value];
        from := Next(found.value);
      }
      CloseChain(s, ast, groupCount, 0, ms, from);
    }

    method PrefixMatch(s: Text) returns (r: Option<Captures>)
      requires Valid() && Guarded(ast)
      ensures r.Some? <==> Starts(s, ast, groupCount, 0)
      ensures r.Some? ==> Genuine(s, ast, groupCount, r.value) && r.value.groups[0].value.start == 0
    {
      r := TryAt(s, 0);
    }

    /** Accepts the prefix match the executor comes to, which is the first way across the pattern, and
        only if that happens to span the text. Any match will do when all matches of the pattern have
        the same length. */
    method WholeMatch(s: Text) returns (r: Option<Captures>)
      requires Valid() && Guarded(ast)
      ensures r.Some? ==> Genuine(s, ast, groupCount, r.value) && r.value.groups[0] == Some(Span(0, |s.chars|))
      ensures r.Some? <==> FirstWaySpans(s, ast, groupCount)
      ensures LoopsConsume(ast) ==> (r.Some? <==> FirstSpans(s, ast, groupCount))
      ensures WidthOf(ast).Some? ==> (r.Some? <==> SomeSpans(s, ast, groupCount))
    {
      var m := PrefixMatch(s);
      FirstSpansMeans(s, ast, groupCount, m);
      SomeSpansMeans(s, ast, groupCount, m);
      FirstWaySpansMeans(prog, s, ast, groupCount, m);
      if m.Some? && m.value.groups[0] == Some(Span(0, |s.chars|)) {
        r := m;
      } else {
        r := None;
      }
    }
  }

  /** The first way across the pattern from the start of the text ends at its end. */
  ghost predicate FirstWaySpans(s: Text, ast: Node, groups: nat) {
    var ways := PatternWays(s, ast, Cursor(0, Blank(groups)));
    ways != [] && ways[0].at.pos == |s.chars|
  }

  lemma {:induction false} FirstWaySpansMeans(p: Program, s: Text, ast: Node, groups: nat, m: Option<Captures>)
    requires groups > 0 && WellFormed(ast, groups) && Guarded(ast) && Compiled(p, ast)
    requires m.Some? <==> Starts(s, ast, groups, 0)
    requires m.Some? ==> Genuine(s, ast, groups, m.value) && m.value.groups[0].value.start == 0
    ensures FirstWaySpans(s, ast, groups) <==> m.Some? && m.value.groups[0] == Some(Span(0, |s.chars|))
  {
    var x := Cursor(0, Blank(groups));
    var t, ways := Thread(x.Record(0), {}), PatternWays(s, ast, x);
    WaysDecideLanguage(p, s, ast, groups, x);
    if ways != [] {
      WayDerives(s, Len(ast) + 3, groups, ast, 1, t, ways[0]);
      DerivationIsSound(s, ast, groups, t.at, ways[0].at);
      assert GroupKept(0, t.at, ways[0].at);
    }
  }

  /** The first result in priority order from the start of the text ends at its end. */
  ghost predicate FirstSpans(s: Text, ast: Node, groups: nat) {
    var ys := Results(s, ast, Cursor(0, Blank(groups)).Record(0));
    ys != [] && ys[0].pos == |s.chars|
  }

  lemma {:induction false} FirstSpansMeans(s: Text, ast: Node, groups: nat, m: Option<Captures>)
    requires groups > 0 && WellFormed(ast, groups)
    requires m.Some? <==> Starts(s, ast, groups, 0)
    requires m.Some? ==> Genuine(s, ast, groups, m.value) && m.value.groups[0].value.start == 0
    ensures LoopsConsume(ast) ==>
              (FirstSpans(s, ast, groups) <==> m.Some? && m.value.groups[0] == Some(Span(0, |s.chars|)))
  {
    var x := Cursor(0, Blank(groups)).Record(0);
    var ys := Results(s, ast, x);
    if LoopsConsume(ast) && ys != [] {
      ResultDerives(s, ast, groups, x, ys[0]);
      DerivationIsSound(s, ast, groups, x, ys[0]);
      assert GroupKept(0, x, ys[0]);
    }
  }

  lemma {:induction false} MatchIsGenuine(p: Program, s: Text, ast: Node, groups: nat, fuel: nat, start: nat)
    requires WellFormed(ast, groups) && Compiled(p, ast) && groups > 0 && start <= |s.chars|
    requires Run(p, s, fuel, 0, start, Blank(groups), {}).Matched?
    ensures var out := Run(p, s, fuel, 0, start, Blank(groups), {}).saves;
            && |out| == 2 * groups
            && Genuine(s, ast, groups, CapturesOf(out, groups))
            && CapturesOf(out, groups).groups[0].value.start == start
  {
    var x := Cursor(start, Blank(groups));
    var y := MatchIsDerivation(p, s, ast, groups, fuel, start, Blank(groups), {});
    DerivationIsSound(s, ast, groups, x.Record(0), y);
    assert GroupKept(0, x.Record(0), y);
    assert Derived(s, ast, groups, x, CapturesOf(y.Record(1).saves, groups));
    if Guarded(ast) {
      RunReturnsFirstWay(p, s, ast, groups, fuel, x);
    }
    if LoopsConsume(ast) {
      RunReturnsFirstResult(p, s, ast, groups, fuel, x);
    }
  }
}
