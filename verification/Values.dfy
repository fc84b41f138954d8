/** Runtime values and their equality. */
module Values {
  import opened Options
  import G = Graphemes

  datatype Width = I8 | I16 | I32 | I64 | U8 | U16 | U32 | U64

  /** A double: every number but zero has one representation. */
  datatype Double = NaN | Zero(negative: bool) | Other(bits: nat)

  function DoubleEq(a: Double, b: Double): bool {
    !a.NaN? && (a == b || (a.Zero? && b.Zero?))
  }

  datatype Field = Field(name: string, value: Value)

  datatype Pair = Pair(key: Value, value: Value)

  /** Class instances and weak references are known by their address. Tasks, groups, continuations,
      streams and accessor variables are all handles. */
  datatype Value =
    | Void
    | Nil
    | Bool(b: bool)
    | Int(raw: int, width: Width)
    | Double(d: Double)
    | Str(s: string)
    | Substring(text: string, start: nat, end: nat)
    | Tuple(items: seq<Value>, labels: seq<Option<string>>)
    | Array(items: seq<Value>)
    | ArraySlice(base: seq<Value>, start: nat, end: nat)
    | Dict(pairs: seq<Pair>)
    | Set(items: seq<Value>)
    | Range(lo: int, hi: int, inclusive: bool)
    | Function(id: nat)
    | Regex(pattern: string)
    | Closure(id: nat)
    | Struct(typeName: string, fields: seq<Field>)
    | Enum(typeName: string, caseName: string, payload: seq<Value>)
    | Object(address: nat)
    | Weak(address: nat)
    | Unowned(address: nat)
    | Metatype(name: string)
    | Handle(kind: nat, id: nat)

  // ----- sizes -----

  function Size(v: Value): (n: nat)
    ensures n > 0
    decreases v, 0
  {
    match v
    case Tuple(items, _) => 1 + SizeAll(items)
    case Array(items) => 1 + SizeAll(items)
    case ArraySlice(base, _, _) => 1 + SizeAll(base)
    case Dict(pairs) => 1 + SizePairs(pairs)
    case Set(items) => 1 + SizeAll(items)
    case Struct(_, fields) => 1 + SizeFields(fields)
    case Enum(_, _, payload) => 1 + SizeAll(payload)
    case _ => 1
  }

  function SizeAll(vs: seq<Value>): nat
    decreases vs, 0
  {
    if vs == [] then 0 else Size(vs[0]) + SizeAll(vs[1..])
  }

  function SizePairs(ps: seq<Pair>): nat
    decreases ps, 0
  {
    if ps == [] then 0 else SizePair(ps[0]) + SizePairs(ps[1..])
  }

  function SizePair(p: Pair): (n: nat)
    ensures n == Size(p.key) + Size(p.value)
    decreases p, 0
  {
    Size(p.key) + Size(p.value)
  }

  function SizeFields(fs: seq<Field>): nat
    decreases fs, 0
  {
    if fs == [] then 0 else Size(fs[0].value) + SizeFields(fs[1..])
  }

  lemma {:induction false} SizeOfTwo(a: seq<Value>, b: seq<Value>)
    ensures SizeAll(a + b) == SizeAll(a) + SizeAll(b)
    decreases |a|
  {
    if a == [] {
      assert a + b == b;
    } else {
      assert (a + b)[1..] == a[1..] + b;
      SizeOfTwo(a[1..], b);
    }
  }

  lemma {:induction false} SizeOfWindow(vs: seq<Value>, start: nat, end: nat)
    requires start <= end <= |vs|
    ensures SizeAll(vs[start..end]) <= SizeAll(vs)
  {
    SizeOfTwo(vs[..start], vs[start..end]);
    SizeOfTwo(vs[..end], vs[end..]);
    assert vs[..start] + vs[start..end] == vs[..end] && vs[..end] + vs[end..] == vs;
  }

  // ----- equality -----

  /** The characters a substring shows. */
  function WindowText(text: string, start: nat, end: nat): string {
    var clusters := G.Clusters(text);
    if start <= end <= |clusters| then G.Concat(clusters[start..end]) else ""
  }

  function TextOf(v: Value): Option<string> {
    match v
    case Str(s) => Some(s)
    case Substring(text, start, end) => Some(WindowText(text, start, end))
    case _ => None
  }

  function Window(v: Value): (r: seq<Value>)
    requires v.ArraySlice?
    ensures SizeAll(r) <= SizeAll(v.base)
  {
    if v.start <= v.end <= |v.base| then (SizeOfWindow(v.base, v.start, v.end); v.base[v.start..v.end]) else []
  }

  predicate Eq(a: Value, b: Value)
    decreases Size(a) + Size(b), 0
  {
    match a
    case Double(d) => b.Double? && DoubleEq(d, b.d)
    case Str(s) => TextOf(b) == Some(s)
    case Substring(_, _, _) => TextOf(b) == TextOf(a)
    case Tuple(items, _) => b.Tuple? && ListEq(items, b.items)
    case Array(items) => b.Array? && ListEq(items, b.items)
    case ArraySlice(_, _, _) => b.ArraySlice? && ListEq(Window(a), Window(b))
    case Dict(pairs) => b.Dict? && |pairs| == |b.pairs| && AllPairsIn(pairs, b.pairs)
    case Set(items) => b.Set? && |items| == |b.items| && AllIn(items, b.items)
    case Struct(typeName, fields) => b.Struct? && typeName == b.typeName && FieldsEq(fields, b.fields)
    case Enum(typeName, caseName, payload) =>
      b.Enum? && typeName == b.typeName && caseName == b.caseName && ListEq(payload, b.payload)
    case Handle(_, _) => false
    case _ => a == b
  }

  predicate ListEq(a: seq<Value>, b: seq<Value>)
    decreases SizeAll(a) + SizeAll(b), 1, |a|
  {
    |a| == |b| && (a != [] ==> Eq(a[0], b[0]) && ListEq(a[1..], b[1..]))
  }

  predicate FieldsEq(a: seq<Field>, b: seq<Field>)
    decreases SizeFields(a) + SizeFields(b), 1, |a|
  {
    |a| == |b| && (a != [] ==> a[0].name == b[0].name && Eq(a[0].value, b[0].value) && FieldsEq(a[1..], b[1..]))
  }

  /** Some element of `b` equals `x`. */
  predicate Contains(b: seq<Value>, x: Value)
    decreases SizeAll(b) + Size(x), 1, |b|
  {
    b != [] && (Eq(b[0], x) || Contains(b[1..], x))
  }

  predicate AllIn(a: seq<Value>, b: seq<Value>)
    decreases SizeAll(a) + SizeAll(b), 2, |a|
  {
    a != [] ==> Contains(b, a[0]) && AllIn(a[1..], b)
  }

  /** Some entry of `b` has an equal key and an equal value. */
  predicate HasPair(b: seq<Pair>, p: Pair)
    decreases SizePairs(b) + SizePair(p), 2, |b|
  {
    b != [] && (PairEq(p, b[0]) || HasPair(b[1..], p))
  }

  predicate PairEq(p: Pair, q: Pair)
    decreases SizePair(p) + SizePair(q), 1
  {
    Eq(p.key, q.key) && Eq(p.value, q.value)
  }

  predicate AllPairsIn(a: seq<Pair>, b: seq<Pair>)
    decreases SizePairs(a) + SizePairs(b), 3, |a|
  {
    a != [] ==> HasPair(b, a[0]) && AllPairsIn(a[1..], b)
  }

  // ----- the values for which the laws hold -----

  /** No NaN and no handle anywhere that equality looks. */
  predicate Sane(v: Value)
    decreases Size(v), 0
  {
    match v
    case Double(d) => !d.NaN?
    case Tuple(items, _) => AllSane(items)
    case Array(items) => AllSane(items)
    case ArraySlice(_, _, _) => AllSane(Window(v))
    case Dict(pairs) => PairsSane(pairs)
    case Set(items) => AllSane(items)
    case Struct(_, fields) => FieldsSane(fields)
    case Enum(_, _, payload) => AllSane(payload)
    case Handle(_, _) => false
    case _ => true
  }

  predicate AllSane(vs: seq<Value>)
    decreases SizeAll(vs), 1
  {
    vs != [] ==> Sane(vs[0]) && AllSane(vs[1..])
  }

  predicate PairsSane(ps: seq<Pair>)
    decreases SizePairs(ps), 1
  {
    ps != [] ==> Sane(ps[0].key) && Sane(ps[0].value) && PairsSane(ps[1..])
  }

  predicate FieldsSane(fs: seq<Field>)
    decreases SizeFields(fs), 1
  {
    fs != [] ==> Sane(fs[0].value) && FieldsSane(fs[1..])
  }

  ghost predicate Distinct(vs: seq<Value>) {
    forall i, j :: 0 <= i < j < |vs| ==> !Eq(vs[i], vs[j])
  }

  /** No two entries are equal in both key and value. */
  ghost predicate DistinctPairs(ps: seq<Pair>) {
    forall i, j :: 0 <= i < j < |ps| ==> !PairEq(ps[i], ps[j])
  }

  ghost predicate DistinctKeys(ps: seq<Pair>) {
    forall i, j :: 0 <= i < j < |ps| ==> !Eq(ps[i].key, ps[j].key)
  }

  /** No set holds two equal elements and no dictionary two equal entries, anywhere that equality
      looks. */
  ghost predicate Unrepeated(v: Value)
    decreases Size(v), 0
  {
    match v
    case Tuple(items, _) => AllUnrepeated(items)
    case Array(items) => AllUnrepeated(items)
    case ArraySlice(_, _, _) => AllUnrepeated(Window(v))
    case Dict(pairs) => PairsUnrepeated(pairs) && DistinctPairs(pairs)
    case Set(items) => AllUnrepeated(items) && Distinct(items)
    case Struct(_, fields) => FieldsUnrepeated(fields)
    case Enum(_, _, payload) => AllUnrepeated(payload)
    case _ => true
  }

  ghost predicate AllUnrepeated(vs: seq<Value>)
    decreases SizeAll(vs), 1
  {
    vs != [] ==> Unrepeated(vs[0]) && AllUnrepeated(vs[1..])
  }

  ghost predicate PairsUnrepeated(ps: seq<Pair>)
    decreases SizePairs(ps), 1
  {
    ps != [] ==> Unrepeated(ps[0].key) && Unrepeated(ps[0].value) && PairsUnrepeated(ps[1..])
  }

  ghost predicate FieldsUnrepeated(fs: seq<Field>)
    decreases SizeFields(fs), 1
  {
    fs != [] ==> Unrepeated(fs[0].value) && FieldsUnrepeated(fs[1..])
  }

  // ----- element by element -----

  lemma {:induction false} SaneAt(vs: seq<Value>, i: nat)
    requires AllSane(vs) && i < |vs|
    ensures Sane(vs[i])
    decreases i
  {
    if i > 0 {
      SaneAt(vs[1..], i - 1);
    }
  }

  lemma {:induction false} SaneIf(vs: seq<Value>)
    requires forall i | 0 <= i < |vs| :: Sane(vs[i])
    ensures AllSane(vs)
    decreases |vs|
  {
    if vs != [] {
      assert forall i | 0 <= i < |vs[1..]| :: vs[1..][i] == vs[i + 1];
      SaneIf(vs[1..]);
    }
  }

  lemma {:induction false} UnrepeatedAt(vs: seq<Value>, i: nat)
    requires AllUnrepeated(vs) && i < |vs|
    ensures Unrepeated(vs[i])
    decreases i
  {
    if i > 0 {
      UnrepeatedAt(vs[1..], i - 1);
    }
  }

  lemma {:induction false} UnrepeatedIf(vs: seq<Value>)
    requires forall i | 0 <= i < |vs| :: Unrepeated(vs[i])
    ensures AllUnrepeated(vs)
    decreases |vs|
  {
    if vs != [] {
      assert forall i | 0 <= i < |vs[1..]| :: vs[1..][i] == vs[i + 1];
      UnrepeatedIf(vs[1..]);
    }
  }

  lemma {:induction false} SizeTwoAt(vs: seq<Value>, i: nat, j: nat)
    requires i < j < |vs|
    ensures Size(vs[i]) + Size(vs[j]) <= SizeAll(vs)
    decreases i
  {
    if i > 0 {
      SizeTwoAt(vs[1..], i - 1, j - 1);
    } else {
      SizeAt(vs[1..], j - 1);
    }
  }

  lemma {:induction false} SizeAt(vs: seq<Value>, i: nat)
    requires i < |vs|
    ensures Size(vs[i]) <= SizeAll(vs)
    decreases i
  {
    if i > 0 {
      SizeAt(vs[1..], i - 1);
    }
  }

  lemma {:induction false} ContainsIf(b: seq<Value>, x: Value, j: nat)
    requires j < |b| && Eq(b[j], x)
    ensures Contains(b, x)
    decreases |b|
  {
    if j > 0 {
      ContainsIf(b[1..], x, j - 1);
    }
  }

  lemma {:induction false} ContainsAt(b: seq<Value>, x: Value) returns (j: nat)
    requires Contains(b, x)
    ensures j < |b| && Eq(b[j], x)
    decreases |b|
  {
    if Eq(b[0], x) {
      j := 0;
    } else {
      j := ContainsAt(b[1..], x);
      j := j + 1;
    }
  }

  lemma {:induction false} AllInAt(a: seq<Value>, b: seq<Value>, i: nat)
    requires AllIn(a, b) && i < |a|
    ensures Contains(b, a[i])
    decreases i
  {
    if i > 0 {
      AllInAt(a[1..], b, i - 1);
    }
  }

  lemma {:induction false} AllInIf(a: seq<Value>, b: seq<Value>)
    requires forall i | 0 <= i < |a| :: Contains(b, a[i])
    ensures AllIn(a, b)
    decreases |a|
  {
    if a != [] {
      assert forall i | 0 <= i < |a[1..]| :: a[1..][i] == a[i + 1];
      AllInIf(a[1..], b);
    }
  }
}
