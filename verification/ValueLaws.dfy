/** Equality of values: transitive always, reflexive without NaN and handles, symmetric without repeats. */
module ValueLaws {
  import opened Options
  import opened Values

  // ----- a distinct choice among n covers all n -----

  predicate Injective(f: seq<nat>, n: nat) {
    |f| == n && (forall i | 0 <= i < n :: f[i] < n) && forall i, j | 0 <= i < j < n :: f[i] != f[j]
  }

  function Members(f: seq<nat>): set<nat> {
    if f == [] then {} else {f[0]} + Members(f[1..])
  }

  function Below(n: nat): set<nat> {
    if n == 0 then {} else {n - 1} + Below(n - 1)
  }

  lemma {:induction false} MembersAre(f: seq<nat>, x: nat)
    ensures x in Members(f) <==> x in f
    decreases |f|
  {
    if f != [] {
      MembersAre(f[1..], x);
    }
  }

  lemma {:induction false} MembersSize(f: seq<nat>)
    requires forall i, j | 0 <= i < j < |f| :: f[i] != f[j]
    ensures |Members(f)| == |f|
    decreases |f|
  {
    if f != [] {
      var rest := f[1..];
      assert forall i, j | 0 <= i < j < |rest| :: rest[i] == f[i + 1] && rest[j] == f[j + 1];
      MembersSize(rest);
      MembersAre(rest, f[0]);
    }
  }

  lemma {:induction false} BelowAre(n: nat, x: nat)
    ensures x in Below(n) <==> x < n
    ensures |Below(n)| == n
    decreases n
  {
    if n > 0 {
      BelowAre(n - 1, x);
      BelowAre(n - 1, n - 1);
    }
  }

  lemma {:induction false} SameSize(a: set<nat>, b: set<nat>)
    requires a <= b && |a| == |b|
    ensures a == b
    decreases |a|
  {
    if a == {} {
      assert b == {};
    } else {
      var x :| x in a;
      SameSize(a - {x}, b - {x});
      assert a == a - {x} + {x} && b == b - {x} + {x};
    }
  }

  lemma {:induction false} Covers(f: seq<nat>, n: nat, j: nat) returns (i: nat)
    requires Injective(f, n) && j < n
    ensures i < n && f[i] == j
  {
    forall x: nat | x in Members(f)
      ensures x in Below(n)
    {
      MembersAre(f, x);
      BelowAre(n, x);
    }
    MembersSize(f);
    BelowAre(n, j);
    SameSize(Members(f), Below(n));
    MembersAre(f, j);
    i :| 0 <= i < n && f[i] == j;
  }

  // ----- pairs, element by element -----

  lemma {:induction false} PairSane(ps: seq<Pair>, i: nat)
    requires PairsSane(ps) && i < |ps|
    ensures Sane(ps[i].key) && Sane(ps[i].value)
    decreases i
  {
    if i > 0 {
      PairSane(ps[1..], i - 1);
    }
  }

  lemma {:induction false} PairsSaneIf(ps: seq<Pair>)
    requires forall i | 0 <= i < |ps| :: Sane(ps[i].key) && Sane(ps[i].value)
    ensures PairsSane(ps)
    decreases |ps|
  {
    if ps != [] {
      assert forall i | 0 <= i < |ps[1..]| :: ps[1..][i] == ps[i + 1];
      PairsSaneIf(ps[1..]);
    }
  }

  lemma {:induction false} PairUnrepeated(ps: seq<Pair>, i: nat)
    requires PairsUnrepeated(ps) && i < |ps|
    ensures Unrepeated(ps[i].key) && Unrepeated(ps[i].value)
    decreases i
  {
    if i > 0 {
      PairUnrepeated(ps[1..], i - 1);
    }
  }

  lemma {:induction false} PairsUnrepeatedIf(ps: seq<Pair>)
    requires forall i | 0 <= i < |ps| :: Unrepeated(ps[i].key) && Unrepeated(ps[i].value)
    ensures PairsUnrepeated(ps)
    decreases |ps|
  {
    if ps != [] {
      assert forall i | 0 <= i < |ps[1..]| :: ps[1..][i] == ps[i + 1];
      PairsUnrepeatedIf(ps[1..]);
    }
  }

  lemma {:induction false} PairSize(ps: seq<Pair>, i: nat)
    requires i < |ps|
    ensures SizePair(ps[i]) <= SizePairs(ps)
    decreases i
  {
    if i > 0 {
      PairSize(ps[1..], i - 1);
    }
  }

  lemma {:induction false} HasPairIf(b: seq<Pair>, p: Pair, j: nat)
    requires j < |b| && PairEq(p, b[j])
    ensures HasPair(b, p)
    decreases |b|
  {
    if j > 0 {
      HasPairIf(b[1..], p, j - 1);
    }
  }

  lemma {:induction false} HasPairAt(b: seq<Pair>, p: Pair) returns (j: nat)
    requires HasPair(b, p)
    ensures j < |b| && PairEq(p, b[j])
    decreases |b|
  {
    if PairEq(p, b[0]) {
      j := 0;
    } else {
      j := HasPairAt(b[1..], p);
      j := j + 1;
    }
  }

  lemma {:induction false} AllPairsInAt(a: seq<Pair>, b: seq<Pair>, i: nat)
    requires AllPairsIn(a, b) && i < |a|
    ensures HasPair(b, a[i])
    decreases i
  {
    if i > 0 {
      AllPairsInAt(a[1..], b, i - 1);
    }
  }

  lemma {:induction false} AllPairsInIf(a: seq<Pair>, b: seq<Pair>)
    requires forall i | 0 <= i < |a| :: HasPair(b, a[i])
    ensures AllPairsIn(a, b)
    decreases |a|
  {
    if a != [] {
      assert forall i | 0 <= i < |a[1..]| :: a[1..][i] == a[i + 1];
      AllPairsInIf(a[1..], b);
    }
  }

  // ----- transitivity, for all values -----

  lemma {:induction false} ListTrans(a: seq<Value>, b: seq<Value>, c: seq<Value>)
    requires ListEq(a, b) && ListEq(b, c)
    ensures ListEq(a, c)
    decreases SizeAll(a) + SizeAll(b) + SizeAll(c), |a|
  {
    if a != [] {
      Trans(a[0], b[0], c[0]);
      ListTrans(a[1..], b[1..], c[1..]);
    }
  }

  lemma {:induction false} FieldsTrans(a: seq<Field>, b: seq<Field>, c: seq<Field>)
    requires FieldsEq(a, b) && FieldsEq(b, c)
    ensures FieldsEq(a, c)
    decreases SizeFields(a) + SizeFields(b) + SizeFields(c), |a|
  {
    if a != [] {
      Trans(a[0].value, b[0].value, c[0].value);
      FieldsTrans(a[1..], b[1..], c[1..]);
    }
  }

  lemma {:induction false} SetTrans(a: seq<Value>, b: seq<Value>, c: seq<Value>)
    requires AllIn(a, b) && AllIn(b, c)
    ensures AllIn(a, c)
    decreases SizeAll(a) + SizeAll(b) + SizeAll(c), 1
  {
    forall i | 0 <= i < |a|
      ensures Contains(c, a[i])
    {
      AllInAt(a, b, i);
      var j := ContainsAt(b, a[i]);
      AllInAt(b, c, j);
      var k := ContainsAt(c, b[j]);
      SizeAt(a, i);
      SizeAt(b, j);
      SizeAt(c, k);
      Trans(c[k], b[j], a[i]);
      ContainsIf(c, a[i], k);
    }
    AllInIf(a, c);
  }

  lemma {:induction false} PairTrans(p: Pair, q: Pair, r: Pair)
    requires PairEq(p, q) && PairEq(q, r)
    ensures PairEq(p, r)
    decreases SizePair(p) + SizePair(q) + SizePair(r), 1
  {
    Trans(p.key, q.key, r.key);
    Trans(p.value, q.value, r.value);
  }

  lemma {:induction false} DictTrans(a: seq<Pair>, b: seq<Pair>, c: seq<Pair>)
    requires AllPairsIn(a, b) && AllPairsIn(b, c)
    ensures AllPairsIn(a, c)
    decreases SizePairs(a) + SizePairs(b) + SizePairs(c), 2
  {
    forall i | 0 <= i < |a|
      ensures HasPair(c, a[i])
    {
      AllPairsInAt(a, b, i);
      var j := HasPairAt(b, a[i]);
      AllPairsInAt(b, c, j);
      var k := HasPairAt(c, b[j]);
      PairSize(a, i);
      PairSize(b, j);
      PairSize(c, k);
      PairTrans(a[i], b[j], c[k]);
      HasPairIf(c, a[i], k);
    }
    AllPairsInIf(a, c);
  }

  /** Equality is transitive on all values. */
  lemma {:induction false} Trans(a: Value, b: Value, c: Value)
    requires Eq(a, b) && Eq(b, c)
    ensures Eq(a, c)
    decreases Size(a) + Size(b) + Size(c), 0
  {
    match a
    case Tuple(items, _) => ListTrans(items, b.items, c.items);
    case Array(items) => ListTrans(items, b.items, c.items);
    case ArraySlice(_, _, _) => ListTrans(Window(a), Window(b), Window(c));
    case Dict(pairs) => DictTrans(pairs, b.pairs, c.pairs);
    case Set(items) => SetTrans(items, b.items, c.items);
    case Struct(_, fields) => FieldsTrans(fields, b.fields, c.fields);
    case Enum(_, _, payload) => ListTrans(payload, b.payload, c.payload);
    case _ =>
  }

  // ----- reflexivity, where there is no NaN and no handle -----

  lemma {:induction false} ListRefl(a: seq<Value>)
    requires AllSane(a)
    ensures ListEq(a, a)
    decreases SizeAll(a), |a|
  {
    if a != [] {
      Refl(a[0]);
      ListRefl(a[1..]);
    }
  }

  lemma {:induction false} FieldsRefl(a: seq<Field>)
    requires FieldsSane(a)
    ensures FieldsEq(a, a)
    decreases SizeFields(a), |a|
  {
    if a != [] {
      Refl(a[0].value);
      FieldsRefl(a[1..]);
    }
  }

  lemma {:induction false} SetRefl(a: seq<Value>)
    requires AllSane(a)
    ensures AllIn(a, a)
    decreases SizeAll(a), |a|
  {
    forall i | 0 <= i < |a|
      ensures Contains(a, a[i])
    {
      SaneAt(a, i);
      SizeAt(a, i);
      Refl(a[i]);
      ContainsIf(a, a[i], i);
    }
    AllInIf(a, a);
  }

  lemma {:induction false} DictRefl(a: seq<Pair>)
    requires PairsSane(a)
    ensures AllPairsIn(a, a)
    decreases SizePairs(a), |a|
  {
    forall i | 0 <= i < |a|
      ensures HasPair(a, a[i])
    {
      PairSane(a, i);
      PairSize(a, i);
      Refl(a[i].key);
      Refl(a[i].value);
      HasPairIf(a, a[i], i);
    }
    AllPairsInIf(a, a);
  }

  /** A value without NaN and handles equals itself. */
  lemma {:induction false} Refl(v: Value)
    requires Sane(v)
    ensures Eq(v, v)
    decreases Size(v), 0
  {
    match v
    case Tuple(items, _) => ListRefl(items);
    case Array(items) => ListRefl(items);
    case ArraySlice(_, _, _) => ListRefl(Window(v));
    case Dict(pairs) => DictRefl(pairs);
    case Set(items) => SetRefl(items);
    case Struct(_, fields) => FieldsRefl(fields);
    case Enum(_, _, payload) => ListRefl(payload);
    case _ =>
  }

  // ----- symmetry, where nothing is repeated -----

  lemma {:induction false} ListSym(a: seq<Value>, b: seq<Value>)
    requires AllUnrepeated(a) && AllUnrepeated(b) && ListEq(a, b)
    ensures ListEq(b, a)
    decreases SizeAll(a) + SizeAll(b), |a|
  {
    if a != [] {
      Sym(a[0], b[0]);
      ListSym(a[1..], b[1..]);
    }
  }

  lemma {:induction false} FieldsSym(a: seq<Field>, b: seq<Field>)
    requires FieldsUnrepeated(a) && FieldsUnrepeated(b) && FieldsEq(a, b)
    ensures FieldsEq(b, a)
    decreases SizeFields(a) + SizeFields(b), |a|
  {
    if a != [] {
      Sym(a[0].value, b[0].value);
      FieldsSym(a[1..], b[1..]);
    }
  }

  /** For each element of `a`, the place of an equal one in `b`. */
  lemma {:induction false} Matching(a: seq<Value>, b: seq<Value>, n: nat) returns (f: seq<nat>)
    requires AllIn(a, b) && n <= |a|
    ensures |f| == n && forall i | 0 <= i < n :: f[i] < |b| && Eq(b[f[i]], a[i])
    decreases n
  {
    if n == 0 {
      f := [];
    } else {
      f := Matching(a, b, n - 1);
      AllInAt(a, b, n - 1);
      var j := ContainsAt(b, a[n - 1]);
      f := f + [j];
    }
  }

  /** Distinct elements have distinct matches. */
  lemma {:induction false} MatchesDiffer(a: seq<Value>, b: seq<Value>, i: nat, k: nat, j: nat)
    requires AllUnrepeated(a) && AllUnrepeated(b) && Distinct(a) && i < k < |a| && j < |b| && Eq(b[j], a[i])
    ensures !Eq(b[j], a[k])
    decreases SizeAll(a) + SizeAll(b), 0
  {
    if Eq(b[j], a[k]) {
      UnrepeatedAt(a, i);
      UnrepeatedAt(b, j);
      SizeTwoAt(a, i, k);
      SizeAt(b, j);
      Sym(b[j], a[i]);
      Trans(a[i], b[j], a[k]);
    }
  }

  lemma {:induction false} SetSym(a: seq<Value>, b: seq<Value>)
    requires AllUnrepeated(a) && AllUnrepeated(b) && Distinct(a) && |a| == |b| && AllIn(a, b)
    ensures AllIn(b, a)
    decreases SizeAll(a) + SizeAll(b), 1
  {
    var f := Matching(a, b, |a|);
    forall i, k | 0 <= i < k < |a|
      ensures f[i] != f[k]
    {
      MatchesDiffer(a, b, i, k, f[i]);
    }
    forall j | 0 <= j < |b|
      ensures Contains(a, b[j])
    {
      var i := Covers(f, |b|, j);
      UnrepeatedAt(a, i);
      UnrepeatedAt(b, j);
      SizeAt(a, i);
      SizeAt(b, j);
      Sym(b[j], a[i]);
      ContainsIf(a, b[j], i);
    }
    AllInIf(b, a);
  }

  lemma {:induction false} MatchingPairs(a: seq<Pair>, b: seq<Pair>, n: nat) returns (f: seq<nat>)
    requires AllPairsIn(a, b) && n <= |a|
    ensures |f| == n && forall i | 0 <= i < n :: f[i] < |b| && PairEq(a[i], b[f[i]])
    decreases n
  {
    if n == 0 {
      f := [];
    } else {
      f := MatchingPairs(a, b, n - 1);
      AllPairsInAt(a, b, n - 1);
      var j := HasPairAt(b, a[n - 1]);
      f := f + [j];
    }
  }

  lemma {:induction false} PairSym(a: seq<Pair>, i: nat, b: seq<Pair>, j: nat)
    requires PairsUnrepeated(a) && PairsUnrepeated(b) && i < |a| && j < |b| && PairEq(a[i], b[j])
    ensures PairEq(b[j], a[i])
    decreases SizePair(a[i]) + SizePair(b[j]), 1
  {
    PairUnrepeated(a, i);
    PairUnrepeated(b, j);
    Sym(a[i].key, b[j].key);
    Sym(a[i].value, b[j].value);
  }

  lemma {:induction false} PairMatchesDiffer(a: seq<Pair>, b: seq<Pair>, i: nat, k: nat, j: nat)
    requires PairsUnrepeated(a) && PairsUnrepeated(b) && DistinctPairs(a) && i < k < |a| && j < |b| && PairEq(a[i], b[j])
    ensures !PairEq(a[k], b[j])
    decreases SizePairs(a) + SizePairs(b), 2
  {
    if PairEq(a[k], b[j]) {
      PairSize(a, k);
      PairSize(b, j);
      PairSym(a, k, b, j);
      PairTrans(a[i], b[j], a[k]);
    }
  }

  lemma {:induction false} DictSym(a: seq<Pair>, b: seq<Pair>)
    requires PairsUnrepeated(a) && PairsUnrepeated(b) && DistinctPairs(a) && |a| == |b| && AllPairsIn(a, b)
    ensures AllPairsIn(b, a)
    decreases SizePairs(a) + SizePairs(b), 3
  {
    var f := MatchingPairs(a, b, |a|);
    forall i, k | 0 <= i < k < |a|
      ensures f[i] != f[k]
    {
      PairMatchesDiffer(a, b, i, k, f[i]);
    }
    forall j | 0 <= j < |b|
      ensures HasPair(a, b[j])
    {
      var i := Covers(f, |b|, j);
      PairSize(a, i);
      PairSize(b, j);
      PairSym(a, i, b, j);
      HasPairIf(a, b[j], i);
    }
    AllPairsInIf(b, a);
  }

  /** Equality is symmetric on values without repeats. */
  lemma {:induction false} Sym(a: Value, b: Value)
    requires Unrepeated(a) && Unrepeated(b) && Eq(a, b)
    ensures Eq(b, a)
    decreases Size(a) + Size(b), 0
  {
    match a
    case Tuple(items, _) => ListSym(items, b.items);
    case Array(items) => ListSym(items, b.items);
    case ArraySlice(_, _, _) => ListSym(Window(a), Window(b));
    case Dict(pairs) => DictSym(pairs, b.pairs);
    case Set(items) => SetSym(items, b.items);
    case Struct(_, fields) => FieldsSym(fields, b.fields);
    case Enum(_, _, payload) => ListSym(payload, b.payload);
    case _ =>
  }

  // ----- exactly which values equal themselves -----

  lemma {:induction false} ListSelf(a: seq<Value>)
    requires AllUnrepeated(a) && ListEq(a, a)
    ensures AllSane(a)
    decreases SizeAll(a), |a|
  {
    if a != [] {
      SelfEqualIsSane(a[0]);
      ListSelf(a[1..]);
    }
  }

  lemma {:induction false} FieldsSelf(a: seq<Field>)
    requires FieldsUnrepeated(a) && FieldsEq(a, a)
    ensures FieldsSane(a)
    decreases SizeFields(a), |a|
  {
    if a != [] {
      SelfEqualIsSane(a[0].value);
      FieldsSelf(a[1..]);
    }
  }

  /** An element found in its own set equals the one found, both ways, and so itself. */
  lemma {:induction false} SetSelf(a: seq<Value>)
    requires AllUnrepeated(a) && AllIn(a, a)
    ensures AllSane(a)
    decreases SizeAll(a), 1
  {
    forall i | 0 <= i < |a|
      ensures Sane(a[i])
    {
      AllInAt(a, a, i);
      var j := ContainsAt(a, a[i]);
      UnrepeatedAt(a, i);
      UnrepeatedAt(a, j);
      SizeAt(a, i);
      SizeAt(a, j);
      Sym(a[j], a[i]);
      Trans(a[i], a[j], a[i]);
      SelfEqualIsSane(a[i]);
    }
    SaneIf(a);
  }

  lemma {:induction false} DictSelf(a: seq<Pair>)
    requires PairsUnrepeated(a) && AllPairsIn(a, a)
    ensures PairsSane(a)
    decreases SizePairs(a), 1
  {
    forall i | 0 <= i < |a|
      ensures Sane(a[i].key) && Sane(a[i].value)
    {
      AllPairsInAt(a, a, i);
      var j := HasPairAt(a, a[i]);
      PairSym(a, i, a, j);
      PairTrans(a[i], a[j], a[i]);
      PairUnrepeated(a, i);
      PairSize(a, i);
      SelfEqualIsSane(a[i].key);
      SelfEqualIsSane(a[i].value);
    }
    PairsSaneIf(a);
  }

  lemma {:induction false} SelfEqualIsSane(v: Value)
    requires Unrepeated(v) && Eq(v, v)
    ensures Sane(v)
    decreases Size(v), 0
  {
    match v
    case Tuple(items, _) => ListSelf(items);
    case Array(items) => ListSelf(items);
    case ArraySlice(_, _, _) => ListSelf(Window(v));
    case Dict(pairs) => DictSelf(pairs);
    case Set(items) => SetSelf(items);
    case Struct(_, fields) => FieldsSelf(fields);
    case Enum(_, _, payload) => ListSelf(payload);
    case _ =>
  }

  /** A value without repeats equals itself exactly when no NaN and no handle stands where equality
      looks. */
  lemma {:induction false} ReflexiveIff(v: Value)
    requires Unrepeated(v)
    ensures Eq(v, v) <==> Sane(v)
  {
    if Sane(v) {
      Refl(v);
    }
    if Eq(v, v) {
      SelfEqualIsSane(v);
    }
  }
}
