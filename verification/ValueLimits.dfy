/** Where the laws of equality stop, and exactly there. */
module ValueLimits {
  import opened Options
  import opened Values
  import opened ValueLaws
  import opened ValueOperators

  /** The number of a function that is none of these values. */
  function FreshId(vs: seq<Value>): (n: nat)
    ensures forall i | 0 <= i < |vs| :: vs[i].Function? ==> vs[i].id < n
  {
    if vs == [] then 0
    else
      var rest := FreshId(vs[1..]);
      assert forall i | 0 < i < |vs| :: vs[i] == vs[1..][i - 1];
      if vs[0].Function? && vs[0].id >= rest then vs[0].id + 1 else rest
  }

  lemma {:induction false} FreshDiffers(v: Value, n: nat)
    requires v.Function? ==> v.id < n
    ensures !Eq(v, Function(n))
  {
  }

  // ----- sets -----

  /** Whatever this set equals is equal to it as well. */
  ghost predicate SetMirrors(a: seq<Value>) {
    forall b: seq<Value> :: AllUnrepeated(b) && Eq(Set(a), Set(b)) ==> Eq(Set(b), Set(a))
  }

  /** The set with its `k`th element replaced by a function it does not hold. */
  function Swapped(a: seq<Value>, k: nat): seq<Value>
    requires k < |a|
  {
    a[k := Function(FreshId(a))]
  }

  lemma {:induction false} SwappedFound(a: seq<Value>, i: nat, k: nat)
    requires AllIn(a, a) && i < k < |a| && Eq(a[i], a[k])
    ensures Eq(Set(a), Set(Swapped(a, k)))
  {
    var b := Swapped(a, k);
    forall m | 0 <= m < |a|
      ensures Contains(b, a[m])
    {
      AllInAt(a, a, m);
      var j := ContainsAt(a, a[m]);
      if j == k {
        Trans(a[i], a[k], a[m]);
        ContainsIf(b, a[m], i);
      } else {
        ContainsIf(b, a[m], j);
      }
    }
    AllInIf(a, b);
  }

  lemma {:induction false} SwappedMissing(a: seq<Value>, k: nat)
    requires k < |a|
    ensures !Eq(Set(Swapped(a, k)), Set(a))
  {
    var b := Swapped(a, k);
    if AllIn(b, a) {
      AllInAt(b, a, k);
      var j := ContainsAt(a, b[k]);
      FreshDiffers(a[j], FreshId(a));
      assert false;
    }
  }

  lemma {:induction false} SwappedUnrepeated(a: seq<Value>, k: nat)
    requires AllUnrepeated(a) && k < |a|
    ensures AllUnrepeated(Swapped(a, k))
  {
    var b := Swapped(a, k);
    forall i | 0 <= i < |b|
      ensures Unrepeated(b[i])
    {
      UnrepeatedAt(a, i);
    }
    UnrepeatedIf(b);
  }

  /** What equals anything without repeats equals itself. */
  lemma {:induction false} FoundIsSelfFound(a: seq<Value>, b: seq<Value>)
    requires AllUnrepeated(a) && AllUnrepeated(b) && AllIn(a, b)
    ensures AllIn(a, a)
  {
    forall i | 0 <= i < |a|
      ensures Contains(a, a[i])
    {
      AllInAt(a, b, i);
      var j := ContainsAt(b, a[i]);
      UnrepeatedAt(a, i);
      UnrepeatedAt(b, j);
      Sym(b[j], a[i]);
      Trans(a[i], b[j], a[i]);
      ContainsIf(a, a[i], i);
    }
    AllInIf(a, a);
  }

  /** Equality is symmetric at a set exactly when its elements are distinct, or it holds a NaN or a
      handle, so that no set equals it. */
  lemma {:induction false} SetSymmetricIff(a: seq<Value>)
    requires AllUnrepeated(a)
    ensures SetMirrors(a) <==> Distinct(a) || !AllSane(a)
  {
    forall b: seq<Value> | AllUnrepeated(b) && Eq(Set(a), Set(b)) && (Distinct(a) || !AllSane(a))
      ensures Eq(Set(b), Set(a))
    {
      FoundIsSelfFound(a, b);
      SetSelf(a);
      SetSym(a, b);
    }
    if !Distinct(a) && AllSane(a) {
      SetRefl(a);
      var i, k :| 0 <= i < k < |a| && Eq(a[i], a[k]);
      SwappedFound(a, i, k);
      SwappedMissing(a, k);
      SwappedUnrepeated(a, k);
    }
  }

  // ----- dictionaries -----

  ghost predicate DictMirrors(a: seq<Pair>) {
    forall b: seq<Pair> :: PairsUnrepeated(b) && Eq(Dict(a), Dict(b)) ==> Eq(Dict(b), Dict(a))
  }

  function Keys(ps: seq<Pair>): (vs: seq<Value>)
    ensures |vs| == |ps| && forall i | 0 <= i < |ps| :: vs[i] == ps[i].key
  {
    if ps == [] then [] else [ps[0].key] + Keys(ps[1..])
  }

  function SwappedPair(a: seq<Pair>, k: nat): seq<Pair>
    requires k < |a|
  {
    a[k := Pair(Function(FreshId(Keys(a))), Nil)]
  }

  lemma {:induction false} SwappedPairFound(a: seq<Pair>, i: nat, k: nat)
    requires PairsUnrepeated(a) && AllPairsIn(a, a) && i < k < |a| && PairEq(a[i], a[k])
    ensures Eq(Dict(a), Dict(SwappedPair(a, k)))
  {
    var b := SwappedPair(a, k);
    forall m | 0 <= m < |a|
      ensures HasPair(b, a[m])
    {
      AllPairsInAt(a, a, m);
      var j := HasPairAt(a, a[m]);
      if j == k {
        PairSym(a, i, a, k);
        PairTrans(a[m], a[k], a[i]);
        HasPairIf(b, a[m], i);
      } else {
        HasPairIf(b, a[m], j);
      }
    }
    AllPairsInIf(a, b);
  }

  lemma {:induction false} SwappedPairMissing(a: seq<Pair>, k: nat)
    requires k < |a|
    ensures !Eq(Dict(SwappedPair(a, k)), Dict(a))
  {
    var b := SwappedPair(a, k);
    if AllPairsIn(b, a) {
      AllPairsInAt(b, a, k);
      var j := HasPairAt(a, b[k]);
      assert false;
    }
  }

  lemma {:induction false} SwappedPairUnrepeated(a: seq<Pair>, k: nat)
    requires PairsUnrepeated(a) && k < |a|
    ensures PairsUnrepeated(SwappedPair(a, k))
  {
    var b := SwappedPair(a, k);
    forall i | 0 <= i < |b|
      ensures Unrepeated(b[i].key) && Unrepeated(b[i].value)
    {
      PairUnrepeated(a, i);
    }
    PairsUnrepeatedIf(b);
  }

  lemma {:induction false} FoundPairsAreSelfFound(a: seq<Pair>, b: seq<Pair>)
    requires PairsUnrepeated(a) && PairsUnrepeated(b) && AllPairsIn(a, b)
    ensures AllPairsIn(a, a)
  {
    forall i | 0 <= i < |a|
      ensures HasPair(a, a[i])
    {
      AllPairsInAt(a, b, i);
      var j := HasPairAt(b, a[i]);
      PairSym(a, i, b, j);
      PairTrans(a[i], b[j], a[i]);
      HasPairIf(a, a[i], i);
    }
    AllPairsInIf(a, a);
  }

  /** Equality is symmetric at a dictionary exactly when no two entries are equal in both key and
      value, or it holds a NaN or a handle. */
  lemma {:induction false} DictSymmetricIff(a: seq<Pair>)
    requires PairsUnrepeated(a)
    ensures DictMirrors(a) <==> DistinctPairs(a) || !PairsSane(a)
  {
    forall b: seq<Pair> | PairsUnrepeated(b) && Eq(Dict(a), Dict(b)) && (DistinctPairs(a) || !PairsSane(a))
      ensures Eq(Dict(b), Dict(a))
    {
      FoundPairsAreSelfFound(a, b);
      DictSelf(a);
      DictSym(a, b);
    }
    if !DistinctPairs(a) && PairsSane(a) {
      var b := DictUnanswered(a);
    }
  }

  /** A sane dictionary with a repeat equals one that does not equal it. */
  lemma {:induction false} DictUnanswered(a: seq<Pair>) returns (b: seq<Pair>)
    requires PairsUnrepeated(a) && PairsSane(a) && !DistinctPairs(a)
    ensures PairsUnrepeated(b) && Eq(Dict(a), Dict(b)) && !Eq(Dict(b), Dict(a))
  {
    DictRefl(a);
    var i, k :| 0 <= i < k < |a| && PairEq(a[i], a[k]);
    b := SwappedPair(a, k);
    SwappedPairFound(a, i, k);
    SwappedPairMissing(a, k);
    SwappedPairUnrepeated(a, k);
  }

  /** Two equal entries, which a dictionary built from a list of pairs keeps, against one of them and
      another; and the same for a set with a repeat. */
  lemma {:induction false} RepeatsBreakSymmetry(p: Pair, q: Pair, x: Value, y: Value)
    requires Sane(p.key) && Sane(p.value) && !PairEq(q, p) && Sane(x) && !Eq(x, y)
    ensures Eq(Dict([p, p]), Dict([p, q])) && !Eq(Dict([p, q]), Dict([p, p]))
    ensures Eq(Set([x, x]), Set([x, y])) && !Eq(Set([x, y]), Set([x, x]))
  {
    TwiceInPairs(p, q);
    Refl(x);
    var one, two := [x, x], [x, y];
    ContainsIf(two, x, 0);
    AllInIf(one, two);
    if AllIn(two, one) {
      AllInAt(two, one, 1);
      var j := ContainsAt(one, y);
      assert false;
    }
  }

  lemma {:induction false} TwiceInPairs(p: Pair, q: Pair)
    requires Sane(p.key) && Sane(p.value) && !PairEq(q, p)
    ensures Eq(Dict([p, p]), Dict([p, q])) && !Eq(Dict([p, q]), Dict([p, p]))
  {
    Refl(p.key);
    Refl(p.value);
    var one, two := [p, p], [p, q];
    HasPairIf(two, p, 0);
    AllPairsInIf(one, two);
    if AllPairsIn(two, one) {
      AllPairsInAt(two, one, 1);
      var j := HasPairAt(one, q);
      assert false;
    }
  }

  // ----- operators -----

  /** A dictionary with one entry. */
  function Single(k: Value, a: seq<Pair>): seq<Pair> {
    [Pair(k, Dict(a))]
  }

  lemma {:induction false} SingleIs(k: Value, a: seq<Pair>, b: seq<Pair>)
    requires Sane(k)
    ensures Eq(Dict(Single(k, a)), Dict(Single(k, b))) <==> Eq(Dict(a), Dict(b))
    ensures DictBinary(EqualTo, Single(k, a), Single(k, b)) == Ok(Eq(Dict(b), Dict(a)))
  {
    Refl(k);
    var one, two := Single(k, a), Single(k, b);
    assert PairEq(one[0], two[0]) == Eq(Dict(a), Dict(b)) && PairEq(two[0], one[0]) == Eq(Dict(b), Dict(a));
    assert two[1..] == [] && one[1..] == [];
    assert HasPair(two, one[0]) == PairEq(one[0], two[0]);
    assert Bound(two, one[0]) == PairEq(two[0], one[0]);
    assert AllPairsIn(one, two) == HasPair(two, one[0]);
    assert AllBound(one, two) == Bound(two, one[0]);
  }

  /** The operator and value equality disagree on a dictionary whose value has two equal entries. */
  lemma {:induction false} RepeatsBreakAgreement(k: Value, p: Pair, q: Pair)
    requires Sane(k) && Sane(p.key) && Sane(p.value) && !PairEq(q, p)
    ensures var a, b := Single(k, [p, p]), Single(k, [p, q]);
            Eq(Dict(a), Dict(b)) && DictBinary(EqualTo, a, b) == Ok(false)
  {
    TwiceInPairs(p, q);
    SingleIs(k, [p, p], [p, q]);
  }

  // ----- operators on dictionaries that hold dictionaries -----

  /** Nothing is repeated, unless it is an entry of this dictionary itself or of one it holds as a value. */
  ghost predicate OneDeep(a: seq<Pair>) {
    forall i | 0 <= i < |a| :: Unrepeated(a[i].key) && Held(a[i].value)
  }

  ghost predicate Held(v: Value) {
    if v.Dict? then PairsUnrepeated(v.pairs) else Unrepeated(v)
  }

  /** No dictionary held as a value has two equal entries. */
  ghost predicate HeldDistinct(a: seq<Pair>) {
    forall i | 0 <= i < |a| && a[i].value.Dict? :: DistinctPairs(a[i].value.pairs)
  }

  /** The operator accepts whatever value equality accepts. */
  ghost predicate OperatorFollows(a: seq<Pair>) {
    forall b: seq<Pair> :: OneDeep(b) && Eq(Dict(a), Dict(b)) ==> DictBinary(EqualTo, a, b) == Ok(true)
  }

  lemma {:induction false} HeldSym(v: Value, w: Value)
    requires Held(v) && Held(w) && Eq(v, w) && (v.Dict? ==> DistinctPairs(v.pairs))
    ensures Eq(w, v)
  {
    if v.Dict? {
      DictSym(v.pairs, w.pairs);
    } else {
      Sym(v, w);
    }
  }

  lemma {:induction false} HeldSane(v: Value, w: Value)
    requires Held(v) && Held(w) && Eq(v, w)
    ensures Sane(v)
  {
    if v.Dict? {
      FoundPairsAreSelfFound(v.pairs, w.pairs);
      DictSelf(v.pairs);
    } else {
      Sym(v, w);
      Trans(v, w, v);
      SelfEqualIsSane(v);
    }
  }

  lemma {:induction false} BoundIf(b: seq<Pair>, p: Pair, j: nat)
    requires j < |b| && PairEq(b[j], p)
    ensures Bound(b, p)
    decreases |b|
  {
    if j > 0 {
      BoundIf(b[1..], p, j - 1);
    }
  }

  lemma {:induction false} BoundAt(b: seq<Pair>, p: Pair) returns (j: nat)
    requires Bound(b, p)
    ensures j < |b| && PairEq(b[j], p)
    decreases |b|
  {
    if PairEq(b[0], p) {
      j := 0;
    } else {
      j := BoundAt(b[1..], p);
      j := j + 1;
    }
  }

  lemma {:induction false} AllBoundIf(a: seq<Pair>, b: seq<Pair>)
    requires forall i | 0 <= i < |a| :: Bound(b, a[i])
    ensures AllBound(a, b)
    decreases |a|
  {
    if a != [] {
      assert forall i | 0 <= i < |a[1..]| :: a[1..][i] == a[i + 1];
      AllBoundIf(a[1..], b);
    }
  }

  lemma {:induction false} AllBoundAt(a: seq<Pair>, b: seq<Pair>, i: nat)
    requires AllBound(a, b) && i < |a|
    ensures Bound(b, a[i])
    decreases i
  {
    if i > 0 {
      AllBoundAt(a[1..], b, i - 1);
    }
  }

  /** Every entry found in another dictionary is sane, and the operator finds it as well if what it
      holds has no repeat. */
  lemma {:induction false} EntryFollows(a: seq<Pair>, b: seq<Pair>, i: nat)
    requires OneDeep(a) && OneDeep(b) && AllPairsIn(a, b) && i < |a|
    ensures Sane(a[i].key) && Sane(a[i].value)
    ensures (a[i].value.Dict? ==> DistinctPairs(a[i].value.pairs)) ==> Bound(b, a[i])
  {
    AllPairsInAt(a, b, i);
    var j := HasPairAt(b, a[i]);
    Sym(a[i].key, b[j].key);
    Trans(a[i].key, b[j].key, a[i].key);
    SelfEqualIsSane(a[i].key);
    HeldSane(a[i].value, b[j].value);
    if a[i].value.Dict? ==> DistinctPairs(a[i].value.pairs) {
      HeldSym(a[i].value, b[j].value);
      BoundIf(b, a[i], j);
    }
  }

  /** Every entry equal to the `i`th one, given another dictionary to hold. */
  ghost function Rebound(a: seq<Pair>, i: nat, d: seq<Pair>): (b: seq<Pair>)
    requires i < |a|
    ensures |b| == |a|
    ensures forall j | 0 <= j < |a| :: b[j] == if PairEq(a[j], a[i]) then Pair(a[j].key, Dict(d)) else a[j]
  {
    seq(|a|, j requires 0 <= j < |a| => if PairEq(a[j], a[i]) then Pair(a[j].key, Dict(d)) else a[j])
  }

  lemma {:induction false} ReboundEqual(a: seq<Pair>, i: nat, d: seq<Pair>)
    requires PairsSane(a) && i < |a| && Eq(a[i].value, Dict(d))
    ensures Eq(Dict(a), Dict(Rebound(a, i, d)))
  {
    var b := Rebound(a, i, d);
    forall j | 0 <= j < |a|
      ensures HasPair(b, a[j])
    {
      PairSane(a, j);
      Refl(a[j].key);
      Refl(a[j].value);
      if PairEq(a[j], a[i]) {
        Trans(a[j].value, a[i].value, Dict(d));
      }
      HasPairIf(b, a[j], j);
    }
    AllPairsInIf(a, b);
  }

  lemma {:induction false} ReboundRefused(a: seq<Pair>, i: nat, d: seq<Pair>)
    requires i < |a| && !Eq(Dict(d), a[i].value)
    ensures DictBinary(EqualTo, a, Rebound(a, i, d)) == Ok(false)
  {
    var b := Rebound(a, i, d);
    if AllBound(a, b) {
      AllBoundAt(a, b, i);
      var j := BoundAt(b, a[i]);
      assert false;
    }
  }

  /** Operator `==` on a dictionary accepts whatever value equality accepts, exactly when no
      dictionary it holds as a value has two equal entries, or there is a NaN or a handle in it, so
      that nothing equals it. */
  lemma {:induction false} AgreementIff(a: seq<Pair>)
    requires OneDeep(a)
    ensures OperatorFollows(a) <==> HeldDistinct(a) || !PairsSane(a)
  {
    forall b: seq<Pair> | OneDeep(b) && Eq(Dict(a), Dict(b)) && (HeldDistinct(a) || !PairsSane(a))
      ensures DictBinary(EqualTo, a, b) == Ok(true)
    {
      forall i | 0 <= i < |a|
        ensures Sane(a[i].key) && Sane(a[i].value) && (HeldDistinct(a) ==> Bound(b, a[i]))
      {
        EntryFollows(a, b, i);
      }
      PairsSaneIf(a);
      AllBoundIf(a, b);
    }
    if !HeldDistinct(a) && PairsSane(a) {
      var i :| 0 <= i < |a| && a[i].value.Dict? && !DistinctPairs(a[i].value.pairs);
      PairSane(a, i);
      var d := DictUnanswered(a[i].value.pairs);
      ReboundEqual(a, i, d);
      ReboundRefused(a, i, d);
      assert OneDeep(Rebound(a, i, d));
    }
  }

  // ----- reflexivity -----

  /** NaN and handles are not equal even to themselves, nor is anything without repeats that holds
      them where equality looks. */
  lemma {:induction false} NotReflexive(v: Value, kind: nat, id: nat)
    requires Unrepeated(v) && !Sane(v)
    ensures !Eq(v, v) && !Eq(Double(NaN), Double(NaN)) && !Eq(Handle(kind, id), Handle(kind, id))
  {
    ReflexiveIff(v);
  }

  /** Repeats can hide a NaN: the set of a dictionary with a NaN and of one with the same entry twice
      equals itself, although neither dictionary is found equal to the other when it is put in. */
  lemma {:induction false} RepeatHidesNaN(p: Pair)
    requires Sane(p.key) && Sane(p.value)
    ensures var hidden, twice := Dict([p, Pair(p.key, Double(NaN))]), Dict([p, p]);
            var v := Set([hidden, twice]);
            !Eq(hidden, twice) && !Sane(v) && Eq(v, v)
  {
    var nan := Pair(p.key, Double(NaN));
    var hidden, twice := Dict([p, nan]), Dict([p, p]);
    var items := [hidden, twice];
    assert !PairEq(nan, p);
    TwiceInPairs(p, nan);
    assert PairsSane([p, p][1..]) && PairsSane([p, p]);
    Refl(twice);
    ContainsIf(items, hidden, 1);
    ContainsIf(items, twice, 1);
    AllInIf(items, items);
    assert [p, nan][1..] == [nan] && !PairsSane([nan]) && !Sane(hidden);
  }
}
