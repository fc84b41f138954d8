/** Text found at a position of a longer text. */
module TextAt {
  /** `c` has the text `t` at position `p`. */
  ghost predicate At(c: string, p: nat, t: string)
    ensures At(c, p, t) ==> p + |t| <= |c|
    decreases |t|
  {
    p <= |c| && (t != [] ==> p < |c| && c[p] == t[0] && At(c, p + 1, t[1..]))
  }

  lemma {:induction false} AtSlice(c: string, p: nat, t: string)
    ensures At(c, p, t) <==> p + |t| <= |c| && c[p..p + |t|] == t
    decreases |t|
  {
    if t != [] {
      AtSlice(c, p + 1, t[1..]);
      if p + |t| <= |c| {
        assert c[p..p + |t|] == [c[p]] + c[p + 1..p + |t|];
      }
    }
  }

  lemma {:induction false} AtParts(c: string, p: nat, t: string, u: string)
    ensures At(c, p, t + u) <==> At(c, p, t) && At(c, p + |t|, u)
    decreases |t|
  {
    if t == [] {
      assert t + u == u;
    } else {
      assert (t + u)[1..] == t[1..] + u;
      AtParts(c, p + 1, t[1..], u);
    }
  }

  lemma {:induction false} AtFrame(c: string, d: string, p: nat, t: string)
    requires At(c, p, t) && c <= d
    ensures At(d, p, t)
    decreases |t|
  {
    if t != [] {
      AtFrame(c, d, p + 1, t[1..]);
    }
  }

  /** Moving an element from the second of two sequences to the first. */
  lemma {:induction false} Shift<T>(a: seq<T>, b: seq<T>)
    requires b != []
    ensures a + [b[0]] + b[1..] == a + b
  {
  }
}
