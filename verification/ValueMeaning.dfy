/** What a value stands for, apart from how it is held; equality of values is equality of what they
    stand for. */
module ValueMeaning {
  import opened Options
  import opened Values
  import G = Graphemes
  import opened ValueLaws

  /** Labels of tuples, windows of slices and substrings, the sign of zero and the order of unordered
      collections are gone. */
  datatype Meaning =
    | Leaf(v: Value)
    | Number(d: Double)
    | Text(s: string)
    | Row(items: seq<Meaning>)
    | List(items: seq<Meaning>)
    | Slice(items: seq<Meaning>)
    | Bag(elements: set<Meaning>)
    | Table(entries: set<(Meaning, Meaning)>)
    | Record(typeName: string, names: seq<string>, values: seq<Meaning>)
    | Case(typeName: string, caseName: string, payload: seq<Meaning>)

  function MeaningOf(v: Value): Meaning
    decreases Size(v), 0
  {
    match v
    case Double(d) => Number(if d.Zero? then Zero(false) else d)
    case Str(s) => Text(s)
    case Substring(text, start, end) =>
      var clusters := G.Clusters(text);
      Text(if start <= end <= |clusters| then G.Concat(clusters[start..end]) else "")
    case Tuple(items, _) => Row(Meanings(items))
    case Array(items) => List(Meanings(items))
    case ArraySlice(base, start, end) => Slice(if start <= end <= |base| then Meanings(base)[start..end] else [])
    case Dict(pairs) => Table(AsSet(PairMeanings(pairs)))
    case Set(items) => Bag(AsSet(Meanings(items)))
    case Struct(typeName, fields) => Record(typeName, FieldNames(fields), FieldMeanings(fields))
    case Enum(typeName, caseName, payload) => Case(typeName, caseName, Meanings(payload))
    case _ => Leaf(v)
  }

  function AsSet<T>(ts: seq<T>): set<T> {
    set t <- ts
  }

  function Meanings(vs: seq<Value>): (ms: seq<Meaning>)
    ensures |ms| == |vs|
    decreases SizeAll(vs), 1, |vs|
  {
    if vs == [] then [] else [MeaningOf(vs[0])] + Meanings(vs[1..])
  }

  function PairMeanings(ps: seq<Pair>): (ms: seq<(Meaning, Meaning)>)
    ensures |ms| == |ps|
    decreases SizePairs(ps), 1, |ps|
  {
    if ps == [] then [] else [(MeaningOf(ps[0].key), MeaningOf(ps[0].value))] + PairMeanings(ps[1..])
  }

  function FieldNames(fs: seq<Field>): seq<string> {
    if fs == [] then [] else [fs[0].name] + FieldNames(fs[1..])
  }

  function FieldMeanings(fs: seq<Field>): seq<Meaning>
    decreases SizeFields(fs), 1, |fs|
  {
    if fs == [] then [] else [MeaningOf(fs[0].value)] + FieldMeanings(fs[1..])
  }

  // ----- element by element -----

  lemma {:induction false} MeaningAt(vs: seq<Value>, i: nat)
    requires i < |vs|
    ensures Meanings(vs)[i] == MeaningOf(vs[i])
    decreases i
  {
    if i > 0 {
      MeaningAt(vs[1..], i - 1);
    }
  }

  lemma {:induction false} WindowMeans(v: Value)
    requires v.ArraySlice?
    ensures MeaningOf(v) == Slice(Meanings(Window(v)))
  {
    var ms, window := Meanings(v.base), Window(v);
    if v.start <= v.end <= |v.base| {
      forall i | 0 <= i < |window|
        ensures ms[v.start + i] == Meanings(window)[i]
      {
        MeaningAt(v.base, v.start + i);
        MeaningAt(window, i);
      }
      assert ms[v.start..v.end] == Meanings(window);
    }
  }

  lemma {:induction false} PairMeaningAt(ps: seq<Pair>, i: nat)
    requires i < |ps|
    ensures PairMeanings(ps)[i] == (MeaningOf(ps[i].key), MeaningOf(ps[i].value))
    decreases i
  {
    if i > 0 {
      PairMeaningAt(ps[1..], i - 1);
    }
  }

  /** A sequence without repeats has as many elements as its set. */
  lemma {:induction false} SetSize<T>(ts: seq<T>)
    requires forall i, j | 0 <= i < j < |ts| :: ts[i] != ts[j]
    ensures |AsSet(ts)| == |ts|
    decreases |ts|
  {
    if ts != [] {
      var rest := ts[1..];
      assert forall i | 0 <= i < |rest| :: rest[i] == ts[i + 1];
      SetSize(rest);
      assert ts == [ts[0]] + rest && ts[0] !in rest;
      assert AsSet(ts) == {ts[0]} + AsSet(rest);
    }
  }

  // ----- equality is equality of meanings -----

  lemma {:induction false} ListMeans(a: seq<Value>, b: seq<Value>)
    requires AllSane(a) && AllSane(b) && AllUnrepeated(a) && AllUnrepeated(b)
    ensures ListEq(a, b) <==> Meanings(a) == Meanings(b)
    decreases SizeAll(a) + SizeAll(b), |a| + 2
  {
    if a != [] && b != [] {
      EqMeans(a[0], b[0]);
      ListMeans(a[1..], b[1..]);
      assert Meanings(a)[0] == MeaningOf(a[0]) && Meanings(a)[1..] == Meanings(a[1..]);
      assert Meanings(b)[0] == MeaningOf(b[0]) && Meanings(b)[1..] == Meanings(b[1..]);
      assert |a| == |b| <==> |a[1..]| == |b[1..]|;
    }
  }

  lemma {:induction false} FieldsMean(a: seq<Field>, b: seq<Field>)
    requires FieldsSane(a) && FieldsSane(b) && FieldsUnrepeated(a) && FieldsUnrepeated(b)
    ensures FieldsEq(a, b) <==> FieldNames(a) == FieldNames(b) && FieldMeanings(a) == FieldMeanings(b)
    decreases SizeFields(a) + SizeFields(b), |a| + 2
  {
    if a != [] && b != [] {
      EqMeans(a[0].value, b[0].value);
      FieldsMean(a[1..], b[1..]);
      assert FieldNames(a)[0] == a[0].name && FieldNames(a)[1..] == FieldNames(a[1..]);
      assert FieldNames(b)[0] == b[0].name && FieldNames(b)[1..] == FieldNames(b[1..]);
      assert FieldMeanings(a)[0] == MeaningOf(a[0].value) && FieldMeanings(a)[1..] == FieldMeanings(a[1..]);
      assert FieldMeanings(b)[0] == MeaningOf(b[0].value) && FieldMeanings(b)[1..] == FieldMeanings(b[1..]);
    }
  }

  /** Two elements, of one list or of two. */
  lemma {:induction false} ElementsMean(a: seq<Value>, b: seq<Value>, i: nat, j: nat)
    requires AllSane(a) && AllSane(b) && AllUnrepeated(a) && AllUnrepeated(b) && i < |a| && j < |b|
    ensures Eq(a[i], b[j]) <==> Meanings(a)[i] == Meanings(b)[j]
    decreases SizeAll(a) + SizeAll(b), 2
  {
    SaneAt(a, i);
    SaneAt(b, j);
    UnrepeatedAt(a, i);
    UnrepeatedAt(b, j);
    SizeAt(a, i);
    SizeAt(b, j);
    MeaningAt(a, i);
    MeaningAt(b, j);
    EqMeans(a[i], b[j]);
  }

  /** Distinct elements that all stand for elements of `b` stand for as many things. */
  lemma {:induction false} DistinctMeans(a: seq<Value>, b: seq<Value>)
    requires AllSane(a) && AllSane(b) && AllUnrepeated(a) && AllUnrepeated(b)
    requires Distinct(a) && AsSet(Meanings(a)) <= AsSet(Meanings(b))
    ensures |AsSet(Meanings(a))| == |a|
    decreases SizeAll(a) + SizeAll(b), 3
  {
    forall i, j | 0 <= i < j < |a|
      ensures Meanings(a)[i] != Meanings(a)[j]
    {
      assert Meanings(a)[i] in AsSet(Meanings(a));
      var k :| 0 <= k < |b| && Meanings(b)[k] == Meanings(a)[i];
      ElementsMean(a, b, i, k);
      ElementsMean(a, b, j, k);
      UnrepeatedAt(a, i);
      UnrepeatedAt(a, j);
      UnrepeatedAt(b, k);
      if Meanings(a)[i] == Meanings(a)[j] {
        Sym(a[j], b[k]);
        Trans(a[i], b[k], a[j]);
      }
    }
    SetSize(Meanings(a));
  }

  lemma {:induction false} AllInMeans(a: seq<Value>, b: seq<Value>)
    requires AllSane(a) && AllSane(b) && AllUnrepeated(a) && AllUnrepeated(b)
    ensures AllIn(a, b) <==> AsSet(Meanings(a)) <= AsSet(Meanings(b))
    decreases SizeAll(a) + SizeAll(b), 3
  {
    if AllIn(a, b) {
      forall i | 0 <= i < |a|
        ensures Meanings(a)[i] in Meanings(b)
      {
        AllInAt(a, b, i);
        var j := ContainsAt(b, a[i]);
        UnrepeatedAt(a, i);
        UnrepeatedAt(b, j);
        Sym(b[j], a[i]);
        ElementsMean(a, b, i, j);
      }
    }
    if AsSet(Meanings(a)) <= AsSet(Meanings(b)) {
      forall i | 0 <= i < |a|
        ensures Contains(b, a[i])
      {
        assert Meanings(a)[i] in AsSet(Meanings(a));
        var j :| 0 <= j < |b| && Meanings(b)[j] == Meanings(a)[i];
        ElementsMean(a, b, i, j);
        UnrepeatedAt(a, i);
        UnrepeatedAt(b, j);
        Sym(a[i], b[j]);
        ContainsIf(b, a[i], j);
      }
      AllInIf(a, b);
    }
  }

  lemma {:induction false} SetMeans(a: seq<Value>, b: seq<Value>)
    requires AllSane(a) && AllSane(b) && AllUnrepeated(a) && AllUnrepeated(b) && Distinct(a) && Distinct(b)
    ensures |a| == |b| && AllIn(a, b) <==> AsSet(Meanings(a)) == AsSet(Meanings(b))
    decreases SizeAll(a) + SizeAll(b), 4
  {
    AllInMeans(a, b);
    AllInMeans(b, a);
    if |a| == |b| && AllIn(a, b) {
      SetSym(a, b);
    }
    if AsSet(Meanings(a)) == AsSet(Meanings(b)) {
      DistinctMeans(a, b);
      DistinctMeans(b, a);
    }
  }

  /** Two entries, of one dictionary or of two. */
  lemma {:induction false} EntriesMean(a: seq<Pair>, b: seq<Pair>, i: nat, j: nat)
    requires PairsSane(a) && PairsSane(b) && PairsUnrepeated(a) && PairsUnrepeated(b) && i < |a| && j < |b|
    ensures PairEq(a[i], b[j]) <==> PairMeanings(a)[i] == PairMeanings(b)[j]
    decreases SizePairs(a) + SizePairs(b), 2
  {
    PairSane(a, i);
    PairSane(b, j);
    PairUnrepeated(a, i);
    PairUnrepeated(b, j);
    PairSize(a, i);
    PairSize(b, j);
    PairMeaningAt(a, i);
    PairMeaningAt(b, j);
    EqMeans(a[i].key, b[j].key);
    EqMeans(a[i].value, b[j].value);
  }

  lemma {:induction false} DistinctPairsMean(a: seq<Pair>, b: seq<Pair>)
    requires PairsSane(a) && PairsSane(b) && PairsUnrepeated(a) && PairsUnrepeated(b)
    requires DistinctPairs(a) && AsSet(PairMeanings(a)) <= AsSet(PairMeanings(b))
    ensures |AsSet(PairMeanings(a))| == |a|
    decreases SizePairs(a) + SizePairs(b), 3
  {
    forall i, j | 0 <= i < j < |a|
      ensures PairMeanings(a)[i] != PairMeanings(a)[j]
    {
      assert PairMeanings(a)[i] in AsSet(PairMeanings(a));
      var k :| 0 <= k < |b| && PairMeanings(b)[k] == PairMeanings(a)[i];
      EntriesMean(a, b, i, k);
      EntriesMean(a, b, j, k);
      if PairMeanings(a)[i] == PairMeanings(a)[j] {
        PairSym(a, j, b, k);
        PairTrans(a[i], b[k], a[j]);
      }
    }
    SetSize(PairMeanings(a));
  }

  lemma {:induction false} AllPairsInMeans(a: seq<Pair>, b: seq<Pair>)
    requires PairsSane(a) && PairsSane(b) && PairsUnrepeated(a) && PairsUnrepeated(b)
    ensures AllPairsIn(a, b) <==> AsSet(PairMeanings(a)) <= AsSet(PairMeanings(b))
    decreases SizePairs(a) + SizePairs(b), 3
  {
    if AllPairsIn(a, b) {
      forall i | 0 <= i < |a|
        ensures PairMeanings(a)[i] in PairMeanings(b)
      {
        AllPairsInAt(a, b, i);
        var j := HasPairAt(b, a[i]);
        EntriesMean(a, b, i, j);
      }
    }
    if AsSet(PairMeanings(a)) <= AsSet(PairMeanings(b)) {
      forall i | 0 <= i < |a|
        ensures HasPair(b, a[i])
      {
        assert PairMeanings(a)[i] in AsSet(PairMeanings(a));
        var j :| 0 <= j < |b| && PairMeanings(b)[j] == PairMeanings(a)[i];
        EntriesMean(a, b, i, j);
        HasPairIf(b, a[i], j);
      }
      AllPairsInIf(a, b);
    }
  }

  lemma {:induction false} DictMeans(a: seq<Pair>, b: seq<Pair>)
    requires PairsSane(a) && PairsSane(b) && PairsUnrepeated(a) && PairsUnrepeated(b) && DistinctPairs(a) && DistinctPairs(b)
    ensures |a| == |b| && AllPairsIn(a, b) <==> AsSet(PairMeanings(a)) == AsSet(PairMeanings(b))
    decreases SizePairs(a) + SizePairs(b), 4
  {
    AllPairsInMeans(a, b);
    AllPairsInMeans(b, a);
    if |a| == |b| && AllPairsIn(a, b) {
      DictSym(a, b);
    }
    if AsSet(PairMeanings(a)) == AsSet(PairMeanings(b)) {
      DistinctPairsMean(a, b);
      DistinctPairsMean(b, a);
    }
  }

  /** Each kind of value has its kind of meaning. */
  lemma {:induction false} KindOfMeaning(v: Value)
    ensures MeaningOf(v).Number? <==> v.Double?
    ensures MeaningOf(v).Text? <==> v.Str? || v.Substring?
    ensures MeaningOf(v).Row? <==> v.Tuple?
    ensures MeaningOf(v).List? <==> v.Array?
    ensures MeaningOf(v).Slice? <==> v.ArraySlice?
    ensures MeaningOf(v).Table? <==> v.Dict?
    ensures MeaningOf(v).Bag? <==> v.Set?
    ensures MeaningOf(v).Record? <==> v.Struct?
    ensures MeaningOf(v).Case? <==> v.Enum?
    ensures MeaningOf(v).Leaf? ==> MeaningOf(v).v == v
  {
  }

  lemma {:induction false} LeafMeans(a: Value, b: Value)
    requires MeaningOf(a).Leaf? && Sane(a)
    ensures Eq(a, b) <==> MeaningOf(a) == MeaningOf(b)
  {
    KindOfMeaning(a);
    KindOfMeaning(b);
    assert Eq(a, b) <==> a == b;
  }

  lemma {:induction false} TextMeans(a: Value, b: Value)
    requires MeaningOf(a).Text?
    ensures Eq(a, b) <==> MeaningOf(a) == MeaningOf(b)
  {
    KindOfMeaning(a);
    KindOfMeaning(b);
    assert Eq(a, b) <==> TextOf(a) == TextOf(b);
  }

  lemma {:induction false} ListsMean(a: Value, b: Value)
    requires Sane(a) && Sane(b) && Unrepeated(a) && Unrepeated(b)
    requires a.Tuple? || a.Array? || a.ArraySlice? || a.Enum?
    ensures Eq(a, b) <==> MeaningOf(a) == MeaningOf(b)
    decreases Size(a) + Size(b), 0
  {
    KindOfMeaning(b);
    match a
    case Tuple(items, _) =>
      if b.Tuple? {
        ListMeans(items, b.items);
      }
    case Array(items) =>
      if b.Array? {
        ListMeans(items, b.items);
      }
    case ArraySlice(_, _, _) =>
      if b.ArraySlice? {
        WindowMeans(a);
        WindowMeans(b);
        ListMeans(Window(a), Window(b));
      }
    case Enum(_, _, payload) =>
      if b.Enum? {
        ListMeans(payload, b.payload);
      }
  }

  lemma {:induction false} CollectionsMean(a: Value, b: Value)
    requires Sane(a) && Sane(b) && Unrepeated(a) && Unrepeated(b) && (a.Dict? || a.Set? || a.Struct?)
    ensures Eq(a, b) <==> MeaningOf(a) == MeaningOf(b)
    decreases Size(a) + Size(b), 0
  {
    KindOfMeaning(b);
    match a
    case Dict(pairs) =>
      if b.Dict? {
        DictMeans(pairs, b.pairs);
      }
    case Set(items) =>
      if b.Set? {
        SetMeans(items, b.items);
      }
    case Struct(_, fields) =>
      if b.Struct? {
        FieldsMean(fields, b.fields);
      }
  }

  lemma {:induction false} EqMeans(a: Value, b: Value)
    requires Sane(a) && Sane(b) && Unrepeated(a) && Unrepeated(b)
    ensures Eq(a, b) <==> MeaningOf(a) == MeaningOf(b)
    decreases Size(a) + Size(b), 1
  {
    if MeaningOf(a).Leaf? {
      LeafMeans(a, b);
    } else if MeaningOf(a).Text? {
      TextMeans(a, b);
    } else if a.Tuple? || a.Array? || a.ArraySlice? || a.Enum? {
      ListsMean(a, b);
    } else if a.Double? {
      KindOfMeaning(b);
    } else {
      KindOfMeaning(a);
      CollectionsMean(a, b);
    }
  }

  /** Values without repeats are equal exactly when they stand for the same thing and hold no NaN and
      no handle where equality looks. */
  lemma {:induction false} EqualIsSameMeaning(a: Value, b: Value)
    requires Unrepeated(a) && Unrepeated(b)
    ensures Eq(a, b) <==> Sane(a) && Sane(b) && MeaningOf(a) == MeaningOf(b)
  {
    var sane := Sane(a) && Sane(b);
    EqualAreSane(a, b);
    if sane {
      EqMeans(a, b);
    }
  }

  lemma {:induction false} EqualAreSane(a: Value, b: Value)
    requires Unrepeated(a) && Unrepeated(b)
    ensures Eq(a, b) ==> Sane(a) && Sane(b)
  {
    if Eq(a, b) {
      Sym(a, b);
      Trans(a, b, a);
      Trans(b, a, b);
      SelfEqualIsSane(a);
      SelfEqualIsSane(b);
    }
  }
}
