/** Where separators and arrows stand in any text, and which of them the parser of types goes by. */
module TypeMarks {
  import opened Options
  import opened TypeScan
  import opened TypeSpelling
  import opened TypeRoundTrip
  import R = TypeRepr

  predicate ArrowAt(s: string, i: nat) {
    i + 1 < |s| && s[i] == '-' && s[i + 1] == '>'
  }

  /** Brackets opened less brackets closed before `i`, arrows left alone. */
  function Net(s: string, i: nat): int
    requires i <= |s|
  {
    if i == 0 then 0 else Net(s, i - 1) + if i > 1 && ArrowAt(s, i - 2) then 0 else Turn(s[i - 1])
  }

  /** The mark stands at `i`, outside all brackets. */
  predicate MarkAt(s: string, mark: Mark, i: nat) {
    && i < |s| && Net(s, i) == 0
    && match mark
       case Arrow => ArrowAt(s, i)
       case Separator(c) => s[i] == c && Turn(c) == 0 && !ArrowAt(s, i)
  }

  lemma {:induction false} HitsFrom(s: string, k: nat, mark: Mark, i: nat)
    requires k <= |s| && (k > 0 ==> !ArrowAt(s, k - 1))
    ensures i in Hits(s[k..], mark, Net(s, k), k) <==> i >= k && MarkAt(s, mark, i)
    decreases |s| - k
  {
    var t := s[k..];
    if k < |s| {
      assert t[0] == s[k] && (ArrowFirst(t) <==> ArrowAt(s, k));
      if ArrowAt(s, k) {
        assert t[2..] == s[k + 2..];
        assert Net(s, k + 1) == Net(s, k) == Net(s, k + 2);
        HitsFrom(s, k + 2, mark, i);
      } else {
        assert t[1..] == s[k + 1..];
        HitsFrom(s, k + 1, mark, i);
      }
    }
  }

  /** The scan finds exactly the places where the mark stands outside all brackets. */
  lemma {:induction false} HitsAre(s: string, mark: Mark, i: nat)
    ensures i in Hits(s, mark, 0, 0) <==> MarkAt(s, mark, i)
  {
    assert s[0..] == s;
    HitsFrom(s, 0, mark, i);
  }

  /** The first place where the mark stands. */
  ghost predicate FirstMark(s: string, mark: Mark, i: nat) {
    MarkAt(s, mark, i) && forall k | 0 <= k < i :: !MarkAt(s, mark, k)
  }

  lemma {:induction false} WithinFirst(seps: seq<nat>, lo: nat, hi: nat, width: nat)
    requires Within(seps, lo, hi, width)
    ensures forall h <- seps :: h >= seps[0] >= lo
    decreases |seps|
  {
    if seps != [] {
      WithinFirst(seps[1..], seps[0] + 1, hi, width);
      assert seps == [seps[0]] + seps[1..];
    }
  }

  lemma {:induction false} FirstHit(s: string, mark: Mark)
    ensures var hits := Hits(s, mark, 0, 0); if hits == [] then !exists i: nat :: MarkAt(s, mark, i) else FirstMark(s, mark, hits[0])
  {
    var hits := Hits(s, mark, 0, 0);
    forall i: nat
      ensures i in hits <==> MarkAt(s, mark, i)
    {
      HitsAre(s, mark, i);
    }
    if hits != [] {
      HitsWithin(s, mark, 0, 0);
      WithinFirst(hits, 0, |s|, if mark.Arrow? then 2 else 1);
      assert hits[0] in hits;
    }
  }

  /** The arrow of a function type is the first one outside all brackets. */
  lemma {:induction false} ArrowIsFirst(s: string)
    ensures match ArrowPos(s) case Some(i) => FirstMark(s, Arrow, i) case None => !exists i: nat :: MarkAt(s, Arrow, i)
  {
    FirstHit(s, Arrow);
  }

  /** What stands before the first colon outside all brackets is the label, and is dropped. */
  lemma {:induction false} LabelIsFirst(part: string)
    ensures forall i: nat | FirstMark(part, Separator(':'), i) :: R.StripTupleLabel(part) == Trim(part[i + 1..])
    ensures (!exists i: nat :: MarkAt(part, Separator(':'), i)) ==> R.StripTupleLabel(part) == Trim(part)
  {
    FirstHit(part, Separator(':'));
  }

  /** Brackets hold a dictionary exactly when there is a colon outside all brackets, and the first such
      colon divides the key from the value. */
  lemma {:induction false} KeyIsFirst(t: string, inner: string)
    requires |inner| < |t|
    ensures forall i: nat | FirstMark(inner, Separator(':'), i) ::
              R.ParseBracketed(t, inner) == R.Repr(t, R.Dictionary(R.Parse(Trim(inner[..i])), R.Parse(Trim(inner[i + 1..]))))
    ensures (!exists i: nat :: MarkAt(inner, Separator(':'), i))
        ==> R.ParseBracketed(t, inner) == R.Repr(t, R.Array(R.Parse(Trim(inner))))
  {
    FirstHit(inner, Separator(':'));
  }

  /** One parameter may stand without parentheses. */
  lemma {:induction false} BareParameter(name: string, ret: Type)
    requires GoodName(name) && Good(ret) && !ret.Labelled?
    ensures R.Parse(name + " -> " + Spell(ret)).kind == R.Function([R.Parse(name)], R.Parse(Spell(ret)))
  {
    var q, t := Spell(ret), name + " -> " + Spell(ret);
    SpelledTight(ret);
    OverName(name, Arrow, 0);
    ArrowAfter(name, q, t);
    TightTwo(name + " -> ", q);
    TightTrims(t);
    NameAndRest(name, q, t);
    NameIsParameter(name, |t|);
  }

  lemma {:induction false} NameAndRest(name: string, q: string, t: string)
    requires Tight(name) && Tight(q) && t == name + " -> " + q
    ensures Trim(t[..|name| + 1]) == name && Trim(t[|name| + 3..]) == q
  {
    TrimPadded("", name, " ");
    TrimPadded(" ", q, "");
    assert t[..|name| + 1] == "" + name + " " && t[|name| + 3..] == " " + q + "";
  }

  lemma {:induction false} NameIsParameter(name: string, bound: nat)
    requires GoodName(name) && |name| < bound
    ensures R.ParseParams(name, bound) == [R.Parse(name)]
  {
    assert Plain(name[0]);
  }

  lemma {:induction false} ArrowAfter(name: string, q: string, t: string)
    requires Over(name, Arrow, 0) && t == name + " -> " + q
    ensures ArrowPos(t) == Some(|name| + 1)
  {
    var rest := " -> " + q;
    assert t == name + rest && rest[1..] == "-> " + q && ("-> " + q)[0] == '-';
    HitsOfTwo(name, rest, Arrow, 0, 0);
    assert Hits(rest, Arrow, 0, |name|) == [] + Hits(rest[1..], Arrow, 0, |name| + 1);
    assert Hits(rest[1..], Arrow, 0, |name| + 1)[0] == |name| + 1;
  }
}
