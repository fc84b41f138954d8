/** Scanning a type spelling: trimming, bracket depth, top-level separators and arrows. */
module TypeScan {
  import opened Options
  import opened WhiteSpace

  // ----- trimming -----

  function TrimStart(s: string): (t: string)
    ensures |t| <= |s|
  {
    if s != [] && IsSpace(s[0]) then TrimStart(s[1..]) else s
  }

  function TrimEnd(s: string): (t: string)
    ensures |t| <= |s|
  {
    if s != [] && IsSpace(s[|s| - 1]) then TrimEnd(s[..|s| - 1]) else s
  }

  function Trim(s: string): (t: string)
    ensures |t| <= |s|
  {
    TrimEnd(TrimStart(s))
  }

  /** Not empty, with no white space at either end. */
  predicate Tight(s: string) {
    s != [] && !IsSpace(s[0]) && !IsSpace(s[|s| - 1])
  }

  lemma {:induction false} TightTrims(s: string)
    requires Tight(s)
    ensures Trim(s) == s && TrimEnd(s) == s && Trim(" " + s) == s && Trim(s + " ") == s && Trim(" " + s + " ") == s
  {
    assert TrimStart(s) == s;
    assert (" " + s)[1..] == s;
    assert TrimStart(s + " ") == s + " ";
    assert (s + " ")[..|s|] == s;
    assert (" " + s + " ")[1..] == s + " ";
  }

  predicate AllSpace(s: string) {
    forall i | 0 <= i < |s| :: IsSpace(s[i])
  }

  lemma {:induction false} TrimStartIs(s: string) returns (before: string)
    ensures s == before + TrimStart(s) && AllSpace(before) && (TrimStart(s) == [] || !IsSpace(TrimStart(s)[0]))
    decreases |s|
  {
    before := [];
    if s != [] && IsSpace(s[0]) {
      before := TrimStartIs(s[1..]);
      before := [s[0]] + before;
    }
  }

  lemma {:induction false} TrimEndIs(s: string) returns (after: string)
    ensures s == TrimEnd(s) + after && AllSpace(after) && (TrimEnd(s) == [] || !IsSpace(TrimEnd(s)[|TrimEnd(s)| - 1]))
    decreases |s|
  {
    after := [];
    if s != [] && IsSpace(s[|s| - 1]) {
      after := TrimEndIs(s[..|s| - 1]);
      after := after + [s[|s| - 1]];
    }
  }

  /** Trimming takes away white space at both ends and leaves none there. */
  lemma {:induction false} TrimIs(s: string) returns (before: string, after: string)
    ensures s == before + Trim(s) + after && AllSpace(before) && AllSpace(after)
    ensures Trim(s) == [] || Tight(Trim(s))
  {
    before := TrimStartIs(s);
    var t := TrimStart(s);
    after := TrimEndIs(t);
    if Trim(s) != [] {
      assert t[0] == Trim(s)[0];
    }
  }

  lemma {:induction false} TrimStartSkips(before: string, s: string)
    requires AllSpace(before)
    ensures TrimStart(before + s) == TrimStart(s)
    decreases |before|
  {
    if before == [] {
      assert before + s == s;
    } else {
      assert (before + s)[1..] == before[1..] + s;
      TrimStartSkips(before[1..], s);
    }
  }

  lemma {:induction false} TrimEndSkips(s: string, after: string)
    requires AllSpace(after)
    ensures TrimEnd(s + after) == TrimEnd(s)
    decreases |after|
  {
    if after == [] {
      assert s + after == s;
    } else {
      assert (s + after)[..|s + after| - 1] == s + after[..|after| - 1];
      TrimEndSkips(s, after[..|after| - 1]);
    }
  }

  /** White space around a text makes no difference. */
  lemma {:induction false} TrimSkips(before: string, s: string, after: string)
    requires AllSpace(before) && AllSpace(after) && Tight(s)
    ensures Trim(before + s + after) == s && TrimEnd(s + after) == s
  {
    assert before + s + after == before + (s + after);
    TrimStartSkips(before, s + after);
    assert TrimStart(s + after) == s + after;
    TrimEndSkips(s, after);
  }

  // ----- brackets and arrows -----

  predicate IsOpen(c: char) {
    c == '(' || c == '[' || c == '<'
  }

  predicate IsClose(c: char) {
    c == ')' || c == ']' || c == '>'
  }

  function Turn(c: char): int {
    if IsOpen(c) then 1 else if IsClose(c) then -1 else 0
  }

  predicate ArrowFirst(s: string) {
    |s| >= 2 && s[0] == '-' && s[1] == '>'
  }

  /** The bracket depth after `s`; an arrow leaves it alone. */
  function Depth(s: string, d: int): int
    decreases |s|
  {
    if s == [] then d else if ArrowFirst(s) then Depth(s[2..], d) else Depth(s[1..], d + Turn(s[0]))
  }

  /** What is searched for: a separator character or the arrow. */
  datatype Mark = Separator(c: char) | Arrow

  /** Where the mark stands at depth zero, when `s` starts at position `at` and depth `d`. */
  function Hits(s: string, mark: Mark, d: int, at: nat): seq<nat>
    decreases |s|
  {
    if s == [] then []
    else if ArrowFirst(s) then (if mark.Arrow? && d == 0 then [at] else []) + Hits(s[2..], mark, d, at + 2)
    else (if Stands(s[0], mark, d) then [at] else []) + Hits(s[1..], mark, d + Turn(s[0]), at + 1)
  }

  predicate Stands(c: char, mark: Mark, d: int) {
    d == 0 && mark.Separator? && Turn(c) == 0 && c == mark.c
  }

  /** Increasing positions from `lo` on, each at least `width` before `hi`. */
  predicate Within(seps: seq<nat>, lo: nat, hi: nat, width: nat) {
    seps != [] ==> lo <= seps[0] && seps[0] + width <= hi && Within(seps[1..], seps[0] + 1, hi, width)
  }

  lemma {:induction false} WithinWider(seps: seq<nat>, lo: nat, hi: nat, width: nat, lower: nat)
    requires Within(seps, lo, hi, width) && lower <= lo
    ensures Within(seps, lower, hi, width)
  {
  }

  lemma {:induction false} WithinPlus(hit: bool, at: nat, rest: seq<nat>, hi: nat, width: nat)
    requires Within(rest, at + 1, hi, width) && (hit ==> at + width <= hi)
    ensures Within((if hit then [at] else []) + rest, at, hi, width)
  {
    if hit {
      assert ([at] + rest)[1..] == rest;
    } else {
      assert [] + rest == rest;
    }
  }

  lemma {:induction false} HitsWithin(s: string, mark: Mark, d: int, at: nat)
    ensures Within(Hits(s, mark, d, at), at, at + |s|, if mark.Arrow? then 2 else 1)
    decreases |s|
  {
    var width := if mark.Arrow? then 2 else 1;
    if ArrowFirst(s) {
      var rest := Hits(s[2..], mark, d, at + 2);
      HitsWithin(s[2..], mark, d, at + 2);
      WithinWider(rest, at + 2, at + |s|, width, at + 1);
      WithinPlus(mark.Arrow? && d == 0, at, rest, at + |s|, width);
    } else if s != [] {
      HitsWithin(s[1..], mark, d + Turn(s[0]), at + 1);
      WithinPlus(Stands(s[0], mark, d), at, Hits(s[1..], mark, d + Turn(s[0]), at + 1), at + |s|, width);
    }
  }

  function ArrowPos(s: string): (r: Option<nat>)
    ensures r.Some? ==> r.value + 2 <= |s|
  {
    var hits := Hits(s, Arrow, 0, 0);
    HitsWithin(s, Arrow, 0, 0);
    if hits == [] then None else Some(hits[0])
  }

  function TopLevel(s: string, sep: char): (r: seq<nat>)
    ensures Within(r, 0, |s|, 1)
  {
    HitsWithin(s, Separator(sep), 0, 0);
    Hits(s, Separator(sep), 0, 0)
  }

  function SplitAt(s: string, seps: seq<nat>, start: nat): (r: seq<string>)
    requires start <= |s| && Within(seps, start, |s|, 1)
    ensures |r| == |seps| + 1
    decreases |seps|
  {
    if seps == [] then [Trim(s[start..])] else [Trim(s[start..seps[0]])] + SplitAt(s, seps[1..], seps[0] + 1)
  }

  // ----- balanced delimiters -----

  /** The depth after `s` when the `>` of an arrow counts as well. */
  function RawDepth(s: string, d: int): int
    decreases |s|
  {
    if s == [] then d else RawDepth(s[1..], d + Turn(s[0]))
  }

  /** Some closing delimiter brings that depth to zero. */
  predicate Touches(s: string, d: int)
    decreases |s|
  {
    s != [] && ((IsClose(s[0]) && d == 1) || Touches(s[1..], d + Turn(s[0])))
  }

  /** What lies between two delimiters that close exactly at the end. */
  function DelimitedInner(s: string, open: char, close: char): (r: Option<string>)
    requires open != close
    ensures r.Some? ==> |s| >= 2 && r.value == s[1..|s| - 1]
  {
    if s == [] || s[0] != open || s[|s| - 1] != close || Touches(s[..|s| - 1], 0) then None else Some(s[1..|s| - 1])
  }

  // ----- the loops -----

  method FindArrow(s: string) returns (r: Option<nat>)
    ensures r == ArrowPos(s)
  {
    var depth, i := 0, 0;
    assert s[0..] == s;
    while i < |s|
      invariant 0 <= i <= |s| && Hits(s[i..], Arrow, depth, i) == Hits(s, Arrow, 0, 0)
    {
      if s[i] == '-' && i + 1 < |s| && s[i + 1] == '>' {
        assert s[i..][2..] == s[i + 2..];
        if depth == 0 {
          return Some(i);
        }
        i := i + 2;
        continue;
      }
      assert s[i..][1..] == s[i + 1..];
      if s[i] == '(' || s[i] == '[' || s[i] == '<' {
        depth := depth + 1;
      } else if s[i] == ')' || s[i] == ']' || s[i] == '>' {
        depth := depth - 1;
      }
      i := i + 1;
    }
    assert s[|s|..] == [];
    return None;
  }

  method TopLevelIndices(s: string, sep: char) returns (out: seq<nat>)
    requires !IsOpen(sep) && !IsClose(sep)
    ensures out == TopLevel(s, sep)
  {
    var depth, i := 0, 0;
    out := [];
    assert s[0..] == s;
    while i < |s|
      invariant 0 <= i <= |s| && out + Hits(s[i..], Separator(sep), depth, i) == TopLevel(s, sep)
    {
      if s[i] == '-' && i + 1 < |s| && s[i + 1] == '>' {
        SkipArrow(s, i, sep, depth);
        i := i + 2;
        continue;
      }
      var c := s[i];
      NextChar(s, i, sep, depth, out);
      if c == '(' || c == '[' || c == '<' {
        depth := depth + 1;
      } else if c == ')' || c == ']' || c == '>' {
        depth := depth - 1;
      } else if c == sep && depth == 0 {
        out := out + [i];
      }
      i := i + 1;
    }
    assert s[|s|..] == [] && out + [] == out;
  }

  lemma {:induction false} SkipArrow(s: string, i: nat, sep: char, depth: int)
    requires i < |s| && ArrowFirst(s[i..])
    ensures Hits(s[i..], Separator(sep), depth, i) == Hits(s[i + 2..], Separator(sep), depth, i + 2)
  {
    assert s[i..][2..] == s[i + 2..];
  }

  lemma {:induction false} NextChar(s: string, i: nat, sep: char, depth: int, out: seq<nat>)
    requires i < |s| && !ArrowFirst(s[i..])
    ensures out + Hits(s[i..], Separator(sep), depth, i)
         == (if Stands(s[i], Separator(sep), depth) then out + [i] else out)
          + Hits(s[i + 1..], Separator(sep), depth + Turn(s[i]), i + 1)
  {
    assert s[i..][1..] == s[i + 1..];
    var rest := Hits(s[i + 1..], Separator(sep), depth + Turn(s[i]), i + 1);
    assert out + ([i] + rest) == out + [i] + rest && out + ([] + rest) == out + rest;
  }

  method Split(s: string, seps: seq<nat>) returns (parts: seq<string>)
    requires Within(seps, 0, |s|, 1)
    ensures parts == SplitAt(s, seps, 0)
  {
    parts := [];
    var start := 0;
    assert seps[0..] == seps;
    for k := 0 to |seps|
      invariant start <= |s| && Within(seps[k..], start, |s|, 1)
      invariant parts + SplitAt(s, seps[k..], start) == SplitAt(s, seps, 0)
    {
      var idx := seps[k];
      assert seps[k..][1..] == seps[k + 1..];
      var part := Trim(s[start..idx]);
      assert parts + ([part] + SplitAt(s, seps[k + 1..], idx + 1)) == parts + [part] + SplitAt(s, seps[k + 1..], idx + 1);
      parts := parts + [part];
      start := idx + 1;
    }
    parts := parts + [Trim(s[start..])];
  }

  method Inner(s: string, open: char, close: char) returns (r: Option<string>)
    requires open != close
    ensures r == DelimitedInner(s, open, close)
  {
    if s == [] || s[0] != open || s[|s| - 1] != close {
      return None;
    }
    var depth := 0;
    ghost var body := s[..|s| - 1];
    assert body[0..] == body;
    for i := 0 to |s|
      invariant i < |s| ==> (Touches(body[i..], depth) <==> Touches(body, 0))
      invariant i == |s| ==> !Touches(body, 0)
    {
      var c := s[i];
      assert i < |body| ==> body[i] == c && body[i..][1..] == body[i + 1..];
      if c == '(' || c == '[' || c == '<' {
        depth := depth + 1;
      } else if c == ')' || c == ']' || c == '>' {
        depth := depth - 1;
        if depth == 0 && i != |s| - 1 {
          return None;
        }
      }
    }
    return Some(s[1..|s| - 1]);
  }
}
