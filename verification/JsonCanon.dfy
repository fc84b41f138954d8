/** Trees with their keys sorted at every level. */
module JsonCanon {
  import opened JsonText

  /** Order of strings by character code. */
  predicate KeyLe(a: string, b: string) {
    a == [] || (b != [] && (a[0] < b[0] || (a[0] == b[0] && KeyLe(a[1..], b[1..]))))
  }

  function Insert(e: Entry, es: seq<Entry>): seq<Entry> {
    if es == [] || KeyLe(e.key, es[0].key) then [e] + es else [es[0]] + Insert(e, es[1..])
  }

  /** The standard library's stable sort by key. */
  function SortByKey(es: seq<Entry>): seq<Entry> {
    if es == [] then [] else Insert(es[0], SortByKey(es[1..]))
  }

  predicate Sorted(es: seq<Entry>) {
    |es| > 1 ==> KeyLe(es[0].key, es[1].key) && Sorted(es[1..])
  }

  /** The entries with a given key, in order. */
  function WithKey(es: seq<Entry>, key: string): seq<Entry> {
    if es == [] then []
    else if es[0].key == key then [es[0]] + WithKey(es[1..], key)
    else WithKey(es[1..], key)
  }

  /** `i` is the first place where the two differ. */
  predicate DiffersAt(a: string, b: string, i: nat) {
    i < |a| && i < |b| && a[..i] == b[..i] && a[i] != b[i]
  }

  /** The order of keys: a prefix comes first, and otherwise the first difference decides. */
  lemma {:induction false} KeyLeIs(a: string, b: string)
    ensures KeyLe(a, b) <==> a <= b || exists i: nat :: DiffersAt(a, b, i) && a[i] < b[i]
    decreases |a|
  {
    if a != [] && b != [] && a[0] == b[0] {
      var c, d := a[1..], b[1..];
      KeyLeIs(c, d);
      assert a <= b <==> c <= d;
      if exists i: nat :: DiffersAt(c, d, i) && c[i] < d[i] {
        var i: nat :| DiffersAt(c, d, i) && c[i] < d[i];
        assert a[..i + 1] == [a[0]] + c[..i] && b[..i + 1] == [b[0]] + d[..i];
        assert DiffersAt(a, b, i + 1);
      }
      if exists i: nat :: DiffersAt(a, b, i) && a[i] < b[i] {
        var i: nat :| DiffersAt(a, b, i) && a[i] < b[i];
        assert c[..i - 1] == a[..i][1..] && d[..i - 1] == b[..i][1..];
        assert DiffersAt(c, d, i - 1);
      }
    } else if a != [] && b != [] {
      assert DiffersAt(a, b, 0);
    }
  }

  lemma {:induction false} KeyLeTotal(a: string, b: string)
    ensures KeyLe(a, b) || KeyLe(b, a)
    ensures KeyLe(a, b) && KeyLe(b, a) ==> a == b
    decreases |a|
  {
    if a != [] && b != [] && a[0] == b[0] {
      KeyLeTotal(a[1..], b[1..]);
      assert a == [a[0]] + a[1..] && b == [b[0]] + b[1..];
    }
  }

  lemma {:induction false} InsertSorts(e: Entry, es: seq<Entry>)
    requires Sorted(es)
    ensures Sorted(Insert(e, es))
    decreases |es|
  {
    if es != [] && !KeyLe(e.key, es[0].key) {
      KeyLeTotal(e.key, es[0].key);
      InsertSorts(e, es[1..]);
      assert Insert(e, es)[1..] == Insert(e, es[1..]);
    } else {
      assert Insert(e, es)[1..] == es;
    }
  }

  lemma {:induction false} InsertKeeps(e: Entry, es: seq<Entry>, key: string)
    ensures WithKey(Insert(e, es), key) == WithKey([e] + es, key)
    decreases |es|
  {
    assert ([e] + es)[1..] == es;
    if es != [] && !KeyLe(e.key, es[0].key) {
      InsertKeeps(e, es[1..], key);
      assert ([e] + es[1..])[1..] == es[1..];
      assert Insert(e, es)[1..] == Insert(e, es[1..]);
      assert KeyLe(e.key, e.key) by { KeyLeTotal(e.key, e.key); }
    }
  }

  /** Sorting orders the keys and keeps the entries of each key in their original order. */
  lemma {:induction false} SortIsStable(es: seq<Entry>, key: string)
    ensures Sorted(SortByKey(es)) && WithKey(SortByKey(es), key) == WithKey(es, key)
    decreases |es|
  {
    if es != [] {
      var rest := SortByKey(es[1..]);
      SortIsStable(es[1..], key);
      InsertSorts(es[0], rest);
      InsertKeeps(es[0], rest, key);
      assert ([es[0]] + rest)[1..] == rest;
    }
  }

  /** The tree with every object's entries sorted by key. */
  function Canon(v: Json): Json
    decreases v, 0
  {
    match v
    case Array(items) => Array(CanonItems(items))
    case Object(entries) => Object(SortByKey(CanonEntries(entries)))
    case _ => v
  }

  function CanonItems(items: seq<Json>): (r: seq<Json>)
    ensures |r| == |items|
    decreases items, 0
  {
    if items == [] then [] else [Canon(items[0])] + CanonItems(items[1..])
  }

  function CanonEntries(es: seq<Entry>): (r: seq<Entry>)
    ensures |r| == |es|
    decreases es, 0
  {
    if es == [] then [] else [Entry(es[0].key, Canon(es[0].value))] + CanonEntries(es[1..])
  }

  lemma {:induction false} CanonItemsAt(items: seq<Json>, i: nat)
    requires i < |items|
    ensures CanonItems(items)[i] == Canon(items[i])
    decreases i
  {
    if i > 0 {
      CanonItemsAt(items[1..], i - 1);
    }
  }

  lemma {:induction false} CanonEntriesAt(es: seq<Entry>, i: nat)
    requires i < |es|
    ensures CanonEntries(es)[i] == Entry(es[i].key, Canon(es[i].value))
    decreases i
  {
    if i > 0 {
      CanonEntriesAt(es[1..], i - 1);
    }
  }

  lemma {:induction false} InsertCommutes(e: Entry, es: seq<Entry>)
    ensures Insert(Entry(e.key, Canon(e.value)), CanonEntries(es)) == CanonEntries(Insert(e, es))
    decreases |es|
  {
    if es != [] && !KeyLe(e.key, es[0].key) {
      InsertCommutes(e, es[1..]);
      assert CanonEntries(es)[1..] == CanonEntries(es[1..]);
      assert Insert(e, es)[1..] == Insert(e, es[1..]);
    } else {
      assert ([e] + es)[1..] == es;
    }
  }

  lemma {:induction false} SortCommutes(es: seq<Entry>)
    ensures SortByKey(CanonEntries(es)) == CanonEntries(SortByKey(es))
    decreases |es|
  {
    if es != [] {
      SortCommutes(es[1..]);
      assert CanonEntries(es)[1..] == CanonEntries(es[1..]);
      InsertCommutes(es[0], SortByKey(es[1..]));
    }
  }

  lemma {:induction false} SortMembers(es: seq<Entry>, e: Entry)
    ensures |SortByKey(es)| == |es|
    ensures e in SortByKey(es) <==> e in es
    decreases |es|
  {
    if es != [] {
      SortMembers(es[1..], e);
      InsertMembers(es[0], SortByKey(es[1..]), e);
      assert es == [es[0]] + es[1..];
    }
  }

  lemma {:induction false} InsertMembers(e: Entry, es: seq<Entry>, x: Entry)
    ensures |Insert(e, es)| == |es| + 1
    ensures x in Insert(e, es) <==> x == e || x in es
    decreases |es|
  {
    if es != [] {
      InsertMembers(e, es[1..], x);
      assert es == [es[0]] + es[1..];
    }
  }

  // ----- sorted at every level -----

  predicate SortedTree(v: Json)
    decreases v, 0
  {
    match v
    case Array(items) => SortedItems(items)
    case Object(entries) => Sorted(entries) && SortedValues(entries)
    case _ => true
  }

  predicate SortedItems(items: seq<Json>)
    decreases items, 0
  {
    items != [] ==> SortedTree(items[0]) && SortedItems(items[1..])
  }

  predicate SortedValues(es: seq<Entry>)
    decreases es, 0
  {
    es != [] ==> SortedTree(es[0].value) && SortedValues(es[1..])
  }

  lemma {:induction false} InsertKeepsValues(e: Entry, es: seq<Entry>)
    ensures SortedValues(Insert(e, es)) <==> SortedTree(e.value) && SortedValues(es)
    decreases |es|
  {
    if es != [] && !KeyLe(e.key, es[0].key) {
      InsertKeepsValues(e, es[1..]);
      assert Insert(e, es)[1..] == Insert(e, es[1..]);
    } else {
      assert ([e] + es)[1..] == es;
    }
  }

  lemma {:induction false} SortKeepsValues(es: seq<Entry>)
    ensures SortedValues(SortByKey(es)) <==> SortedValues(es)
    decreases |es|
  {
    if es != [] {
      SortKeepsValues(es[1..]);
      InsertKeepsValues(es[0], SortByKey(es[1..]));
    }
  }

  lemma {:induction false} SortIsIdle(es: seq<Entry>)
    requires Sorted(es)
    ensures SortByKey(es) == es
    decreases |es|
  {
    if es != [] {
      SortIsIdle(es[1..]);
    }
  }

  /** The sorted tree has its keys in order at every level, and a tree that has them already stays
      as it is. */
  lemma {:induction false} CanonSorts(v: Json)
    ensures SortedTree(Canon(v))
    ensures SortedTree(v) ==> Canon(v) == v
    decreases v, 0
  {
    match v
    case Array(items) => CanonSortsItems(items);
    case Object(entries) =>
      CanonSortsEntries(entries);
      SortKeepsValues(CanonEntries(entries));
      SortIsStable(CanonEntries(entries), "");
      if Sorted(entries) {
        SortIsIdle(entries);
      }
    case _ =>
  }

  lemma {:induction false} CanonSortsItems(items: seq<Json>)
    ensures SortedItems(CanonItems(items))
    ensures SortedItems(items) ==> CanonItems(items) == items
    decreases items, 0
  {
    if items != [] {
      CanonSorts(items[0]);
      CanonSortsItems(items[1..]);
      assert CanonItems(items)[1..] == CanonItems(items[1..]);
    }
  }

  lemma {:induction false} CanonSortsEntries(es: seq<Entry>)
    ensures SortedValues(CanonEntries(es))
    ensures SortedValues(es) ==> CanonEntries(es) == es
    decreases es, 0
  {
    if es != [] {
      CanonSorts(es[0].value);
      CanonSortsEntries(es[1..]);
      assert CanonEntries(es)[1..] == CanonEntries(es[1..]);
    }
  }
}
