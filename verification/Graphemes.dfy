/** Grapheme clusters: the characters of a string (a subset of section 3.1.1 of UAX #29). */
module Graphemes {
  const ZWJ: char := '\U{200D}'

  predicate IsRegional(c: char) {
    0x1F1E6 <= c as int <= 0x1F1FF
  }

  /** Combining marks and variation selectors. */
  predicate IsExtend(c: char) {
    var n := c as int;
    || 0x0300 <= n <= 0x036F || 0x0483 <= n <= 0x0489 || 0x0591 <= n <= 0x05BD || 0x0610 <= n <= 0x061A
    || 0x064B <= n <= 0x065F || n == 0x0670 || 0x06D6 <= n <= 0x06DC || n == 0x0E31 || 0x0E34 <= n <= 0x0E3A
    || 0x1AB0 <= n <= 0x1AFF || 0x1DC0 <= n <= 0x1DFF || 0x20D0 <= n <= 0x20FF || 0xFE00 <= n <= 0xFE0F
    || 0xFE20 <= n <= 0xFE2F || 0xE0100 <= n <= 0xE01EF
  }

  /** How many regional indicators end the text. */
  function RegionalRun(t: string): nat {
    if t != [] && IsRegional(t[|t| - 1]) then RegionalRun(t[..|t| - 1]) + 1 else 0
  }

  /** The next character belongs to the cluster so far. */
  predicate Joins(cluster: string, cur: char)
    requires cluster != []
  {
    var prev := cluster[|cluster| - 1];
    || (prev == '\r' && cur == '\n')
    || IsExtend(cur) || cur == ZWJ
    || prev == ZWJ
    || (IsRegional(prev) && IsRegional(cur) && RegionalRun(cluster) % 2 == 1)
  }

  /** Where the cluster that starts `s` ends, known to reach `i`. */
  function ClusterEnd(s: string, i: nat): (n: nat)
    requires 1 <= i <= |s|
    ensures i <= n <= |s|
    decreases |s| - i
  {
    if i < |s| && Joins(s[..i], s[i]) then ClusterEnd(s, i + 1) else i
  }

  function First(s: string): (n: nat)
    requires s != []
    ensures 1 <= n <= |s|
  {
    ClusterEnd(s, 1)
  }

  function Clusters(s: string): seq<string> {
    if s == [] then [] else [s[..First(s)]] + Clusters(s[First(s)..])
  }

  function Concat(parts: seq<string>): string {
    if parts == [] then "" else parts[0] + Concat(parts[1..])
  }

  // ----- the loops -----

  method CountRun(t: string) returns (run: nat)
    ensures run == RegionalRun(t)
  {
    run := 0;
    var k := |t|;
    assert t[..|t|] == t;
    while k > 0 && IsRegional(t[k - 1])
      invariant 0 <= k <= |t| && run + RegionalRun(t[..k]) == RegionalRun(t)
    {
      assert t[..k][..k - 1] == t[..k - 1];
      k := k - 1;
      run := run + 1;
    }
  }

  method Segment(s: string) returns (out: seq<string>)
    ensures out == Clusters(s)
  {
    out := [];
    var i: nat := 0;
    assert s[0..] == s;
    while i < |s|
      invariant i <= |s| && out + Clusters(s[i..]) == Clusters(s)
    {
      var start := i;
      i := ClusterFrom(s, start);
      NextCluster(s, start, i, out);
      out := out + [s[start..i]];
    }
    assert s[|s|..] == [] && out + [] == out;
  }

  /** The inner loop: where the cluster that starts at `start` ends. */
  method ClusterFrom(s: string, start: nat) returns (i: nat)
    requires start < |s|
    ensures start < i <= |s| && i - start == First(s[start..])
  {
    ghost var rest := s[start..];
    i := start + 1;
    while true
      invariant start < i <= |s| && ClusterEnd(rest, i - start) == First(rest)
      decreases |s| - i
    {
      if i >= |s| {
        break;
      }
      var prev, cur := s[i - 1], s[i];
      ClusterStep(s, start, i);
      if prev == '\r' && cur == '\n' {
        i := i + 1;
        continue;
      }
      if IsExtend(cur) || cur == ZWJ {
        i := i + 1;
        continue;
      }
      if prev == ZWJ {
        i := i + 1;
        continue;
      }
      if IsRegional(prev) && IsRegional(cur) {
        var run := CountRun(s[start..i]);
        if run % 2 == 1 {
          i := i + 1;
          continue;
        }
      }
      break;
    }
  }

  lemma {:induction false} ClusterStep(s: string, start: nat, i: nat)
    requires start < i < |s|
    ensures var rest := s[start..];
            ClusterEnd(rest, i - start) == if Joins(s[start..i], s[i]) then ClusterEnd(rest, i - start + 1) else i - start
  {
    var rest := s[start..];
    assert rest[..i - start] == s[start..i] && rest[i - start] == s[i];
  }

  lemma {:induction false} NextCluster(s: string, start: nat, i: nat, out: seq<string>)
    requires start < i <= |s| && i - start == First(s[start..])
    ensures out + Clusters(s[start..]) == out + [s[start..i]] + Clusters(s[i..])
  {
    var rest := s[start..];
    assert rest[..i - start] == s[start..i] && rest[i - start..] == s[i..];
    assert out + ([s[start..i]] + Clusters(s[i..])) == out + [s[start..i]] + Clusters(s[i..]);
  }

  // ----- clusters make up the text -----

  /** The clusters concatenate to the text, and none is empty. */
  lemma {:induction false} ClustersMakeText(s: string)
    ensures Concat(Clusters(s)) == s
    decreases |s|
  {
    if s != [] {
      var head, rest := s[..First(s)], s[First(s)..];
      ClustersMakeText(rest);
      assert Clusters(s) == [head] + Clusters(rest) && s == head + rest;
      assert ([head] + Clusters(rest))[1..] == Clusters(rest);
    }
  }

  lemma {:induction false} ClusterNotEmpty(s: string, k: nat)
    requires k < |Clusters(s)|
    ensures Clusters(s)[k] != []
    decreases k
  {
    if k > 0 {
      assert Clusters(s)[k] == Clusters(s[First(s)..])[k - 1];
      ClusterNotEmpty(s[First(s)..], k - 1);
    }
  }

  /** The end of a cluster depends only on the text up to the character after it. */
  lemma {:induction false} EndIsLocal(s: string, t: string, i: nat)
    requires 1 <= i <= |s| && i <= |t| && ClusterEnd(s, i) <= |t| && t[..ClusterEnd(s, i)] == s[..ClusterEnd(s, i)]
    requires |t| == ClusterEnd(s, i) || (ClusterEnd(s, i) < |s| && t[ClusterEnd(s, i)] == s[ClusterEnd(s, i)])
    ensures ClusterEnd(t, i) == ClusterEnd(s, i)
    decreases |s| - i
  {
    var n := ClusterEnd(s, i);
    assert s[..i] == s[..n][..i] == t[..i];
    if i < n {
      assert s[i] == s[..n][i] == t[i];
      EndIsLocal(s, t, i + 1);
    }
  }

  /** The first cluster stays the first when what follows begins the same way, or is missing. */
  lemma {:induction false} ClusterThen(s: string, tail: string, t: string)
    requires s != [] && t == s[..First(s)] + tail
    requires tail == [] || (First(s) < |s| && tail[0] == s[First(s)])
    ensures Clusters(t) == [s[..First(s)]] + Clusters(tail)
  {
    var n := First(s);
    assert t[..n] == s[..n] && t[n..] == tail;
    if tail != [] {
      assert t[n] == tail[0];
    }
    EndIsLocal(s, t, 1);
  }

  lemma {:induction false} ConcatTwo(a: seq<string>, b: seq<string>)
    ensures Concat(a + b) == Concat(a) + Concat(b)
    decreases |a|
  {
    if a == [] {
      assert a + b == b;
    } else {
      assert (a + b)[1..] == a[1..] + b;
      ConcatTwo(a[1..], b);
    }
  }

  lemma {:induction false} PrefixText(s: string, k: nat)
    requires k <= |Clusters(s)|
    ensures Concat(Clusters(s)[..k]) <= s
  {
    var parts := Clusters(s);
    ClustersMakeText(s);
    ConcatTwo(parts[..k], parts[k..]);
    assert parts[..k] + parts[k..] == parts;
  }

  /** Cutting a text after whole clusters leaves those clusters as they were. */
  lemma {:induction false} PrefixClusters(s: string, k: nat)
    requires k <= |Clusters(s)|
    ensures Clusters(Concat(Clusters(s)[..k])) == Clusters(s)[..k]
    decreases |s|
  {
    if k > 0 {
      var head, rest := s[..First(s)], s[First(s)..];
      var later := Clusters(rest)[..k - 1];
      PrefixClusters(rest, k - 1);
      PrefixText(rest, k - 1);
      assert Clusters(s)[..k] == [head] + later;
      ConcatCons(head, later);
      ClusterThen(s, Concat(later), head + Concat(later));
    }
  }

  lemma {:induction false} ConcatCons(x: string, later: seq<string>)
    ensures Concat([x] + later) == x + Concat(later)
  {
    assert ([x] + later)[1..] == later;
  }

  lemma {:induction false} SuffixClusters(s: string, k: nat)
    requires k <= |Clusters(s)|
    ensures Clusters(Concat(Clusters(s)[k..])) == Clusters(s)[k..]
    decreases |s|
  {
    ClustersMakeText(s);
    if k == 0 {
      assert Clusters(s)[0..] == Clusters(s);
    } else {
      assert Clusters(s)[k..] == Clusters(s[First(s)..])[k - 1..];
      SuffixClusters(s[First(s)..], k - 1);
    }
  }

  /** Segmenting the text of any window of clusters gives back that window. */
  lemma {:induction false} WindowClusters(s: string, i: nat, j: nat)
    requires i <= j <= |Clusters(s)|
    ensures Clusters(Concat(Clusters(s)[i..j])) == Clusters(s)[i..j]
  {
    var rest := Concat(Clusters(s)[i..]);
    SuffixClusters(s, i);
    PrefixClusters(rest, j - i);
    assert Clusters(s)[i..][..j - i] == Clusters(s)[i..j];
  }

  // ----- joining texts -----

  /** Two texts put together keep their clusters exactly when the second does not begin with a
      character that joins the last cluster of the first. */
  lemma {:induction false} ClustersOfTwo(s: string, t: string)
    requires s != [] && t != []
    ensures Clusters(s) != [] && Last(s) != []
    ensures Clusters(s + t) == Clusters(s) + Clusters(t) <==> !Joins(Last(s), t[0])
    decreases |s|
  {
    ClusterNotEmpty(s, |Clusters(s)| - 1);
    var n := First(s);
    if n < |s| {
      MoreClustersThen(s, s[..n], s[n..], t);
    } else {
      OneClusterThen(s, t);
    }
  }

  lemma {:induction false} MoreClustersThen(s: string, head: string, rest: string, t: string)
    requires s != [] && t != [] && First(s) < |s| && head == s[..First(s)] && rest == s[First(s)..]
    ensures Clusters(rest) != [] && Last(s) == Last(rest) != []
    ensures Clusters(s + t) == Clusters(s) + Clusters(t) <==> !Joins(Last(s), t[0])
    decreases |s|, 0
  {
    ClustersOfTwo(rest, t);
    assert Clusters(s) == [head] + Clusters(rest) && s + t == head + (rest + t);
    ClusterThen(s, rest + t, s + t);
    SameTail(head, Clusters(rest + t), Clusters(rest), Clusters(t));
  }

  function Last(s: string): string
    requires s != []
  {
    Clusters(s)[|Clusters(s)| - 1]
  }

  lemma {:induction false} OneClusterThen(s: string, t: string)
    requires s != [] && t != [] && First(s) == |s|
    ensures Last(s) == s
    ensures Clusters(s + t) == Clusters(s) + Clusters(t) <==> !Joins(s, t[0])
  {
    var u := s + t;
    assert s[..|s|] == s && s[|s|..] == [] && Clusters(s) == [s];
    WholeCluster(s, u, 1);
    assert u[..|s|] == s && u[|s|..] == t;
    if Joins(s, t[0]) {
      assert |Clusters(u)[0]| == First(u) > |s|;
      assert (Clusters(s) + Clusters(t))[0] == s;
    }
  }

  lemma {:induction false} SameTail<T>(x: T, a: seq<T>, b: seq<T>, c: seq<T>)
    ensures [x] + a == [x] + b + c <==> a == b + c
  {
    assert ([x] + a)[1..] == a && ([x] + b + c)[1..] == b + c;
  }

  /** A text that is one cluster, put before more text. */
  lemma {:induction false} WholeCluster(s: string, u: string, i: nat)
    requires 1 <= i <= |s| < |u| && ClusterEnd(s, i) == |s| && u[..|s|] == s
    ensures if Joins(s, u[|s|]) then ClusterEnd(u, i) > |s| else ClusterEnd(u, i) == |s|
    decreases |s| - i
  {
    assert u[..i] == s[..i];
    if i < |s| {
      assert u[i] == s[i];
      WholeCluster(s, u, i + 1);
    } else {
      assert s[..|s|] == s;
    }
  }

  /** A run of regional indicators pairs up into flags. */
  lemma {:induction false} FlagsPair(s: string)
    requires forall k | 0 <= k < |s| :: IsRegional(s[k])
    ensures |Clusters(s)| == (|s| + 1) / 2
    decreases |s|
  {
    if |s| == 1 {
      assert s[1..] == [];
    } else if |s| > 1 {
      FlagEnd(s);
      FlagsPair(s[2..]);
    }
  }

  lemma {:induction false} FlagEnd(s: string)
    requires |s| >= 2 && forall k | 0 <= k < |s| :: IsRegional(s[k])
    ensures First(s) == 2
  {
    assert s[..1][..0] == [] && RegionalRun(s[..1]) == 1;
    assert s[..2][..1] == s[..1] && RegionalRun(s[..2]) == 2;
    assert ClusterEnd(s, 2) == 2;
  }
}
