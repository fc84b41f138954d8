/** Where a text is cut into clusters, place by place. */
module GraphemeCuts {
  import opened Graphemes

  /** Some first clusters make up the first `n` characters. */
  predicate CutAt(parts: seq<string>, n: nat) {
    parts != [] && (n == |parts[0]| || (n > |parts[0]| && CutAt(parts[1..], n - |parts[0]|)))
  }

  /** Exactly `n` regional indicators in a row stand before the place. */
  predicate RegionalsBefore(s: string, p: nat, n: nat)
    requires p <= |s|
  {
    n <= p && (forall k | p - n <= k < p :: IsFlagLetter(s[k])) && (n < p ==> !IsFlagLetter(s[p - n - 1]))
  }

  /** The characters on both sides of the place belong to one cluster. */
  ghost predicate Sticks(s: string, p: nat)
    requires 0 < p < |s|
  {
    || s[p - 1..p + 1] == "\r\n"
    || IsMark(s[p]) || ZWJ in s[p - 1..p + 1]
    || (IsFlagLetter(s[p]) && exists n | 0 <= n <= p :: RegionalsBefore(s, p, n) && n % 2 == 1)
  }

  const MARKS: seq<(int, int)> := [
    (0x0300, 0x036F), (0x0483, 0x0489), (0x0591, 0x05BD), (0x0610, 0x061A), (0x064B, 0x065F), (0x0670, 0x0670),
    (0x06D6, 0x06DC), (0x0E31, 0x0E31), (0x0E34, 0x0E3A), (0x1AB0, 0x1AFF), (0x1DC0, 0x1DFF), (0x20D0, 0x20FF),
    (0xFE00, 0xFE0F), (0xFE20, 0xFE2F), (0xE0100, 0xE01EF)
  ]

  predicate IsMark(c: char) {
    exists k | 0 <= k < |MARKS| :: MARKS[k].0 <= c as int <= MARKS[k].1
  }

  lemma {:induction false} MarksAre(c: char)
    ensures IsMark(c) <==> IsExtend(c)
  {
    var n := c as int;
    assert |MARKS| == 15;
    assert IsExtend(c) <==>
        || MarkedBy(n, 0) || MarkedBy(n, 1) || MarkedBy(n, 2) || MarkedBy(n, 3) || MarkedBy(n, 4)
        || MarkedBy(n, 5) || MarkedBy(n, 6) || MarkedBy(n, 7) || MarkedBy(n, 8) || MarkedBy(n, 9)
        || MarkedBy(n, 10) || MarkedBy(n, 11) || MarkedBy(n, 12) || MarkedBy(n, 13) || MarkedBy(n, 14);
  }

  predicate MarkedBy(n: int, k: nat)
    requires k < |MARKS|
  {
    MARKS[k].0 <= n <= MARKS[k].1
  }

  /** The regional indicator for a letter of the alphabet. */
  function FlagLetter(k: nat): char
    requires k < 26
  {
    (0x1F1E6 + k) as char
  }

  predicate IsFlagLetter(c: char) {
    exists k: nat | k < 26 :: FlagLetter(k) == c
  }

  lemma {:induction false} FlagLettersAre(c: char)
    ensures IsFlagLetter(c) <==> IsRegional(c)
  {
    if IsRegional(c) {
      assert FlagLetter(c as int - 0x1F1E6) == c;
    }
  }

  lemma {:induction false} RunIs(s: string, p: nat, n: nat)
    requires p <= |s|
    ensures RegionalsBefore(s, p, n) <==> RegionalRun(s[..p]) == n
    decreases p
  {
    if p > 0 {
      assert s[..p][..p - 1] == s[..p - 1];
      FlagLettersAre(s[p - 1]);
      if IsRegional(s[p - 1]) {
        if n > 0 {
          RunIs(s, p - 1, n - 1);
        }
      }
    }
  }

  lemma {:induction false} RunOfTwo(before: string, t: string)
    requires t != []
    ensures RegionalRun(t) <= |t|
    ensures RegionalRun(t) == |t| ==> IsRegional(t[0])
    ensures RegionalRun(before + t) == RegionalRun(t) + if RegionalRun(t) == |t| then RegionalRun(before) else 0
    decreases |t|
  {
    var s := before + t;
    assert s[..|s| - 1] == before + t[..|t| - 1];
    if |t| > 1 {
      RunOfTwo(before, t[..|t| - 1]);
    } else {
      assert t[..|t| - 1] == [] && before + [] == before;
    }
  }

  /** The place does not split a pair of regional indicators. */
  predicate Even(s: string, a: nat)
    requires a < |s|
  {
    a == 0 || !IsRegional(s[a]) || RegionalRun(s[..a]) % 2 == 0
  }

  /** From such a place on, the pairs are those of the whole text. */
  lemma {:induction false} SameParity(s: string, a: nat, p: nat)
    requires a < p <= |s| && Even(s, a)
    ensures RegionalRun(s[a..p]) % 2 == RegionalRun(s[..p]) % 2
  {
    RunOfTwo(s[..a], s[a..p]);
    assert s[..a] + s[a..p] == s[..p];
  }

  lemma {:induction false} SticksIffJoins(s: string, a: nat, p: nat)
    requires a < p < |s| && Even(s, a)
    ensures Sticks(s, p) <==> Joins(s[a..p], s[p])
    ensures !Sticks(s, p) ==> Even(s, p)
  {
    SameParity(s, a, p);
    MarksAre(s[p]);
    FlagLettersAre(s[p]);
    var run := RegionalRun(s[..p]);
    RunIs(s, p, run);
    forall n | 0 <= n <= p
      ensures RegionalsBefore(s, p, n) <==> run == n
    {
      RunIs(s, p, n);
    }
    assert s[p - 1..p + 1] == [s[p - 1], s[p]];
    assert run % 2 == 1 ==> IsRegional(s[p - 1]);
  }

  /** Inside the cluster that starts at `a` every place sticks, and its end does not. */
  lemma {:induction false} ClusterSticks(s: string, a: nat, i: nat)
    requires a < i <= |s| && Even(s, a)
    ensures var end := a + ClusterEnd(s[a..], i - a);
            && (forall p | i <= p < end :: Sticks(s, p))
            && (end < |s| ==> !Sticks(s, end) && Even(s, end))
    decreases |s| - i
  {
    if i < |s| {
      ClusterStep(s, a, i);
      SticksIffJoins(s, a, i);
      if Sticks(s, i) {
        ClusterSticks(s, a, i + 1);
      }
    }
  }

  lemma {:induction false} CutsAfter(s: string, a: nat, end: nat, p: nat)
    requires a < p < |s| && end == a + First(s[a..])
    ensures CutAt(Clusters(s[a..]), p - a) <==> p == end || (p > end && CutAt(Clusters(s[end..]), p - end))
  {
    var rest := s[a..];
    assert rest[First(rest)..] == s[end..];
    var parts := Clusters(s[end..]);
    assert Clusters(rest) == [rest[..First(rest)]] + parts;
    assert ([rest[..First(rest)]] + parts)[1..] == parts;
  }

  lemma {:induction false} CutsFrom(s: string, a: nat, p: nat)
    requires a < p < |s| && Even(s, a)
    ensures CutAt(Clusters(s[a..]), p - a) <==> !Sticks(s, p)
    decreases |s| - a
  {
    var end := a + First(s[a..]);
    ClusterSticks(s, a, a + 1);
    CutsAfter(s, a, end, p);
    if end < p {
      CutsFrom(s, end, p);
    }
  }

  /** A text is cut at a place exactly when the characters around it do not stick together. */
  lemma {:induction false} CutIff(s: string, p: nat)
    requires 0 < p < |s|
    ensures CutAt(Clusters(s), p) <==> !Sticks(s, p)
  {
    assert s[0..] == s;
    CutsFrom(s, 0, p);
  }
}
