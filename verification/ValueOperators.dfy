/** Operator `==` on collections, and what equality of collections means. */
module ValueOperators {
  import opened Options
  import opened Values
  import opened ValueLaws
  import G = Graphemes

  datatype Operator = EqualTo | NotEqual | Add | Less

  datatype OperatorError = NotApplicable | DifferentArity

  /** Equal size and every element found on the other side. */
  function SetBinary(op: Operator, a: seq<Value>, b: seq<Value>): Result<bool, OperatorError> {
    var eq := |a| == |b| && AllIn(a, b);
    match op
    case EqualTo => Ok(eq)
    case NotEqual => Ok(!eq)
    case _ => Err(NotApplicable)
  }

  /** The operator asks whether the other side's key and value equal these, the other way round from
      value equality. */
  predicate Bound(b: seq<Pair>, p: Pair) {
    b != [] && (PairEq(b[0], p) || Bound(b[1..], p))
  }

  predicate AllBound(a: seq<Pair>, b: seq<Pair>) {
    a != [] ==> Bound(b, a[0]) && AllBound(a[1..], b)
  }

  function DictBinary(op: Operator, a: seq<Pair>, b: seq<Pair>): Result<bool, OperatorError> {
    var eq := |a| == |b| && AllBound(a, b);
    match op
    case EqualTo => Ok(eq)
    case NotEqual => Ok(!eq)
    case _ => Err(NotApplicable)
  }

  /** The ordering operators on tuples are not part of this model. */
  function TupleBinary(op: Operator, a: seq<Value>, b: seq<Value>): Result<bool, OperatorError>
    requires op.EqualTo? || op.NotEqual?
  {
    if |a| != |b| then Err(DifferentArity) else Ok(if op.EqualTo? then ListEq(a, b) else !ListEq(a, b))
  }

  lemma {:induction false} BoundIsHasPair(b: seq<Pair>, p: Pair)
    requires PairsUnrepeated(b) && Unrepeated(p.key) && Unrepeated(p.value)
    ensures Bound(b, p) <==> HasPair(b, p)
    decreases |b|
  {
    if b != [] {
      PairEqFlips(b[0], p);
      BoundIsHasPair(b[1..], p);
    }
  }

  lemma {:induction false} PairEqFlips(p: Pair, q: Pair)
    requires Unrepeated(p.key) && Unrepeated(p.value) && Unrepeated(q.key) && Unrepeated(q.value)
    ensures PairEq(p, q) <==> PairEq(q, p)
  {
    if PairEq(p, q) {
      Sym(p.key, q.key);
      Sym(p.value, q.value);
    }
    if PairEq(q, p) {
      Sym(q.key, p.key);
      Sym(q.value, p.value);
    }
  }

  lemma {:induction false} AllBoundIsAllPairsIn(a: seq<Pair>, b: seq<Pair>)
    requires PairsUnrepeated(a) && PairsUnrepeated(b)
    ensures AllBound(a, b) <==> AllPairsIn(a, b)
    decreases |a|
  {
    if a != [] {
      BoundIsHasPair(b, a[0]);
      AllBoundIsAllPairsIn(a[1..], b);
    }
  }

  /** Operator `==` agrees with value equality on sets, dictionaries and tuples of one arity, and is
      symmetric on the first two. */
  lemma {:induction false} OperatorsAgree(a: Value, b: Value)
    requires Unrepeated(a) && Unrepeated(b)
    ensures a.Set? && b.Set? ==>
              SetBinary(EqualTo, a.items, b.items) == Ok(Eq(a, b)) && SetBinary(NotEqual, b.items, a.items) == Ok(!Eq(a, b))
    ensures a.Dict? && b.Dict? ==>
              DictBinary(EqualTo, a.pairs, b.pairs) == Ok(Eq(a, b)) && DictBinary(NotEqual, b.pairs, a.pairs) == Ok(!Eq(a, b))
    ensures a.Tuple? && b.Tuple? ==>
              TupleBinary(EqualTo, a.items, b.items) == if |a.items| == |b.items| then Ok(Eq(a, b)) else Err(DifferentArity)
    ensures a.Tuple? && b.Tuple? ==>
              TupleBinary(NotEqual, b.items, a.items) == if |a.items| == |b.items| then Ok(!Eq(a, b)) else Err(DifferentArity)
  {
    if Eq(a, b) {
      Sym(a, b);
    }
    if Eq(b, a) {
      Sym(b, a);
    }
    if a.Dict? && b.Dict? {
      AllBoundIsAllPairsIn(a.pairs, b.pairs);
      AllBoundIsAllPairsIn(b.pairs, a.pairs);
    }
  }

  // ----- what equality of sets and dictionaries means -----

  /** A one-to-one pairing of equal elements. */
  ghost predicate Pairing(a: seq<Value>, b: seq<Value>, f: seq<nat>) {
    |a| == |b| && Injective(f, |b|) && forall i | 0 <= i < |a| :: Eq(b[f[i]], a[i])
  }

  ghost predicate PairedUp(a: seq<Value>, b: seq<Value>) {
    exists f :: Pairing(a, b, f)
  }

  /** Sets are equal exactly when their elements can be paired up, one to one, as equals. */
  lemma {:induction false} SetsPairUp(a: seq<Value>, b: seq<Value>)
    requires Unrepeated(Set(a)) && Unrepeated(Set(b))
    ensures Eq(Set(a), Set(b)) <==> PairedUp(a, b)
  {
    if Eq(Set(a), Set(b)) {
      var f := Matching(a, b, |a|);
      forall i, k | 0 <= i < k < |a|
        ensures f[i] != f[k]
      {
        MatchesDiffer(a, b, i, k, f[i]);
      }
      assert Pairing(a, b, f);
    }
    if PairedUp(a, b) {
      var f :| Pairing(a, b, f);
      forall i | 0 <= i < |a|
        ensures Contains(b, a[i])
      {
        ContainsIf(b, a[i], f[i]);
      }
      AllInIf(a, b);
    }
  }

  /** The order in which a set holds its elements does not matter. */
  lemma {:induction false} SetOrder(a: seq<Value>, b: seq<Value>)
    requires AllSane(a) && multiset(a) == multiset(b)
    ensures Eq(Set(a), Set(b))
  {
    assert |a| == |multiset(a)| == |multiset(b)| == |b|;
    forall i | 0 <= i < |a|
      ensures Contains(b, a[i])
    {
      assert a[i] in multiset(a) && a[i] in b;
      ghost var j: nat :| j < |b| && b[j] == a[i];
      SaneAt(a, i);
      Refl(a[i]);
      ContainsIf(b, a[i], j);
    }
    AllInIf(a, b);
  }

  /** Nor does the order in which a dictionary holds its entries. */
  lemma {:induction false} DictOrder(a: seq<Pair>, b: seq<Pair>)
    requires PairsSane(a) && multiset(a) == multiset(b)
    ensures Eq(Dict(a), Dict(b))
  {
    assert |a| == |multiset(a)| == |multiset(b)| == |b|;
    forall i | 0 <= i < |a|
      ensures HasPair(b, a[i])
    {
      assert a[i] in multiset(a) && a[i] in b;
      ghost var j: nat :| j < |b| && b[j] == a[i];
      PairSane(a, i);
      Refl(a[i].key);
      Refl(a[i].value);
      HasPairIf(b, a[i], j);
    }
    AllPairsInIf(a, b);
  }

  /** In equal dictionaries, equal keys are bound to equal values. */
  lemma {:induction false} DictBinds(a: seq<Pair>, b: seq<Pair>, i: nat, j: nat)
    requires Unrepeated(Dict(a)) && Unrepeated(Dict(b)) && DistinctKeys(b) && Eq(Dict(a), Dict(b))
    requires i < |a| && j < |b| && Eq(a[i].key, b[j].key)
    ensures Eq(a[i].value, b[j].value)
  {
    AllPairsInAt(a, b, i);
    var k := HasPairAt(b, a[i]);
    PairUnrepeated(a, i);
    PairUnrepeated(b, j);
    PairUnrepeated(b, k);
    Sym(a[i].key, b[j].key);
    Sym(a[i].key, b[k].key);
    if k < j {
      Trans(b[k].key, a[i].key, b[j].key);
    } else if j < k {
      Trans(b[j].key, a[i].key, b[k].key);
    }
  }

  /** A substring has as many characters as its window, and equals the string it spells. */
  lemma {:induction false} SubstringWindow(text: string, start: nat, end: nat)
    requires start <= end <= |G.Clusters(text)|
    ensures var shown := WindowText(text, start, end);
            && |G.Clusters(shown)| == end - start
            && Eq(Substring(text, start, end), Str(shown)) && Eq(Str(shown), Substring(text, start, end))
  {
    G.WindowClusters(text, start, end);
  }
}
