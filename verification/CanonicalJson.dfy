/**
 Canonical JSON: `sort_json`, the step before printing what gets hashed and signed. Sorting is shown to be a true
 canonical form.
 */
module CanonicalJson {
  import opened Core

  /** A JSON value; an object is its entries in insertion order, a number its literal. */
  datatype Json =
    | Null
    | Bool(b: bool)
    | Number(literal: string)
    | String(text: string)
    | Array(items: seq<Json>)
    | Object(entries: seq<Entry<Json>>)

  datatype Entry<+V> = Entry(key: string, value: V)

  // ---- key order ----

  /** Lexicographic order by code point, which is the bytewise order of the UTF-8 forms. */
  predicate Less(a: string, b: string) {
    if b == "" then false
    else if a == "" then true
    else a[0] < b[0] || (a[0] == b[0] && Less(a[1..], b[1..]))
  }

  lemma {:induction false} LessIsTotal(a: string, b: string)
    ensures a == b || Less(a, b) || Less(b, a)
  {
    if a != "" && b != "" && a[0] == b[0] {
      LessIsTotal(a[1..], b[1..]);
      assert a == [a[0]] + a[1..] && b == [b[0]] + b[1..];
    }
  }

  lemma {:induction false} LessIsAsymmetric(a: string, b: string)
    requires Less(a, b)
    ensures !Less(b, a) && a != b
  {
    if a != "" && a[0] == b[0] {
      LessIsAsymmetric(a[1..], b[1..]);
    }
  }

  lemma {:induction false} LessIsTransitive(a: string, b: string, c: string)
    requires Less(a, b) && Less(b, c)
    ensures Less(a, c)
  {
    if a != "" && a[0] == b[0] == c[0] {
      LessIsTransitive(a[1..], b[1..], c[1..]);
    }
  }

  /** The order spelled out: at the first difference `a` has the smaller code point, or it has ended. */
  ghost predicate Precedes(a: string, b: string) {
    exists p :: DifferAt(a, b, p)
  }

  predicate DifferAt(a: string, b: string, p: nat) {
    p <= |a| && p < |b| && a[..p] == b[..p] && (p == |a| || a[p] as int < b[p] as int)
  }

  lemma {:induction false} LessIsLexicographic(a: string, b: string)
    ensures Less(a, b) <==> Precedes(a, b)
  {
    if a != "" && b != "" && a[0] == b[0] {
      LessIsLexicographic(a[1..], b[1..]);
      if Precedes(a[1..], b[1..]) {
        var p: nat :| DifferAt(a[1..], b[1..], p);
        assert a[..p + 1] == [a[0]] + a[1..][..p] && b[..p + 1] == [b[0]] + b[1..][..p];
        assert DifferAt(a, b, p + 1);
      }
      if Precedes(a, b) {
        var p: nat :| DifferAt(a, b, p);
        assert p > 0 && a[1..][..p - 1] == a[..p][1..] && b[1..][..p - 1] == b[..p][1..];
        assert DifferAt(a[1..], b[1..], p - 1);
      }
    } else if Less(a, b) {
      assert DifferAt(a, b, 0);
    } else {
      forall p: nat
        ensures !DifferAt(a, b, p)
      {
        if 0 < p <= |a| && p < |b| {
          assert a[..p][0] == a[0] && b[..p][0] == b[0];
        }
      }
    }
  }

  // ---- sorting ----

  /** Inserts an entry before the first one with a larger key. */
  function Insert<V>(e: Entry<V>, entries: seq<Entry<V>>): (r: seq<Entry<V>>)
    ensures |r| == |entries| + 1
  {
    if entries == [] || Less(e.key, entries[0].key) then [e] + entries
    else [entries[0]] + Insert(e, entries[1..])
  }

  /** `sort_json`: objects are rebuilt in key order, at every depth. */
  function SortJson(v: Json): Json
    decreases v, 1
  {
    match v
    case Array(items) => Array(SortItems(items))
    case Object(entries) => Object(SortEntries(entries))
    case _ => v
  }

  function SortItems(items: seq<Json>): (r: seq<Json>)
    ensures |r| == |items|
    decreases items, 0
  {
    if items == [] then [] else [SortJson(items[0])] + SortItems(items[1..])
  }

  function SortEntries(entries: seq<Entry<Json>>): (r: seq<Entry<Json>>)
    ensures |r| == |entries|
    decreases entries, 0
  {
    if entries == [] then []
    else Insert(Entry(entries[0].key, SortJson(entries[0].value)), SortEntries(entries[1..]))
  }

  // ---- well-formed values and equality up to key order ----

  predicate HasKey<V>(entries: seq<Entry<V>>, key: string) {
    exists i :: 0 <= i < |entries| && entries[i].key == key
  }

  predicate DistinctKeys<V>(entries: seq<Entry<V>>) {
    forall i, j :: 0 <= i < j < |entries| ==> entries[i].key != entries[j].key
  }

  /** Keys are distinct in every object, as any JSON map type guarantees. */
  predicate WellFormed(v: Json) {
    match v
    case Array(items) => forall i :: 0 <= i < |items| ==> WellFormed(items[i])
    case Object(entries) => DistinctKeys(entries) && forall i :: 0 <= i < |entries| ==> WellFormed(entries[i].value)
    case _ => true
  }

  /** The two values differ at most in the order of object keys, at any depth. */
  ghost predicate SameUpToOrder(a: Json, b: Json) {
    match (a, b)
    case (Array(xs), Array(ys)) => |xs| == |ys| && forall i :: 0 <= i < |xs| ==> SameUpToOrder(xs[i], ys[i])
    case (Object(es), Object(fs)) =>
      && |es| == |fs|
      && forall i :: 0 <= i < |es| ==>
           exists j :: 0 <= j < |fs| && fs[j].key == es[i].key && SameUpToOrder(es[i].value, fs[j].value)
    case _ => a == b
  }

  // ---- what sorting does ----

  predicate Sorted<V>(entries: seq<Entry<V>>) {
    forall i, j :: 0 <= i < j < |entries| ==> Less(entries[i].key, entries[j].key)
  }

  lemma {:induction false} InsertMembers(e: Entry<Json>, entries: seq<Entry<Json>>, x: Entry<Json>)
    ensures x in Insert(e, entries) <==> x == e || x in entries
  {
    if entries != [] && !Less(e.key, entries[0].key) {
      InsertMembers(e, entries[1..], x);
    }
  }

  lemma {:induction false} InsertSorted(e: Entry<Json>, entries: seq<Entry<Json>>)
    requires Sorted(entries) && !HasKey(entries, e.key)
    ensures Sorted(Insert(e, entries))
  {
    if entries != [] {
      if Less(e.key, entries[0].key) {
        forall j | 0 < j < |entries|
          ensures Less(e.key, entries[j].key)
        {
          LessIsTransitive(e.key, entries[0].key, entries[j].key);
        }
      } else {
        LessIsTotal(e.key, entries[0].key);
        assert forall i :: 0 <= i < |entries[1..]| ==> entries[1..][i] == entries[i + 1];
        InsertSorted(e, entries[1..]);
        var rest := Insert(e, entries[1..]);
        forall j | 0 <= j < |rest|
          ensures Less(entries[0].key, rest[j].key)
        {
          InsertMembers(e, entries[1..], rest[j]);
        }
      }
    }
  }

  /** The entries of a sorted object are the sorted entries of the original, in key order. */
  lemma {:induction false} SortEntriesMembers(entries: seq<Entry<Json>>, x: Entry<Json>)
    ensures x in SortEntries(entries) <==>
      exists i :: 0 <= i < |entries| && x == Entry(entries[i].key, SortJson(entries[i].value))
  {
    if entries != [] {
      var rest := entries[1..];
      SortEntriesMembers(rest, x);
      InsertMembers(Entry(entries[0].key, SortJson(entries[0].value)), SortEntries(rest), x);
      assert forall i :: 0 <= i < |rest| ==> rest[i] == entries[i + 1];
      if i :| 0 < i < |entries| && x == Entry(entries[i].key, SortJson(entries[i].value)) {
        assert rest[i - 1] == entries[i];
      }
    }
  }

  lemma {:induction false} SortEntriesSorted(entries: seq<Entry<Json>>)
    requires DistinctKeys(entries)
    ensures Sorted(SortEntries(entries))
  {
    if entries != [] {
      var rest := entries[1..];
      SortEntriesSorted(rest);
      forall i | 0 <= i < |SortEntries(rest)|
        ensures SortEntries(rest)[i].key != entries[0].key
      {
        SortEntriesMembers(rest, SortEntries(rest)[i]);
      }
      InsertSorted(Entry(entries[0].key, SortJson(entries[0].value)), SortEntries(rest));
    }
  }

  lemma {:induction false} SortItemsAt(items: seq<Json>, i: nat)
    requires i < |items|
    ensures SortItems(items)[i] == SortJson(items[i])
  {
    if i > 0 {
      SortItemsAt(items[1..], i - 1);
    }
  }

  /** Two strictly sorted lists with the same members are the same list. */
  lemma {:induction false} SortedIsUnique(xs: seq<Entry<Json>>, ys: seq<Entry<Json>>)
    requires Sorted(xs) && Sorted(ys) && |xs| == |ys|
    requires forall x :: x in xs ==> x in ys
    ensures xs == ys
  {
    if xs != [] {
      assert xs[0] in ys;
      var i :| 0 <= i < |ys| && ys[i] == xs[0];
      LeastComesFirst(xs, ys, i);
      forall x | x in xs[1..]
        ensures x in ys[1..]
      {
        var j :| 0 <= j < |xs[1..]| && xs[1..][j] == x;
        LessIsAsymmetric(xs[0].key, xs[j + 1].key);
        assert xs[j + 1] in ys;
      }
      SortedIsUnique(xs[1..], ys[1..]);
      assert xs == [xs[0]] + xs[1..] && ys == [ys[0]] + ys[1..];
    }
  }

  /** The least entry of `xs` comes first in `ys`: later, too few places would be left for the others. */
  lemma {:induction false} LeastComesFirst(xs: seq<Entry<Json>>, ys: seq<Entry<Json>>, i: nat)
    requires Sorted(xs) && Sorted(ys) && |xs| == |ys|
    requires forall x :: x in xs ==> x in ys
    requires i < |ys| && ys[i] == xs[0]
    ensures i == 0
  {
    forall k | 0 <= k < |xs|
      ensures xs[k] in ys[i..]
    {
      assert xs[k] in ys;
      var j :| 0 <= j < |ys| && ys[j] == xs[k];
      assert k == 0 || Less(xs[0].key, xs[k].key);
      if j < i {
        LessIsAsymmetric(ys[j].key, ys[i].key);
      } else {
        assert ys[i..][j - i] == xs[k];
      }
    }
    SortedFits(xs, ys[i..]);
  }

  lemma {:induction false} SortedFits(xs: seq<Entry<Json>>, ys: seq<Entry<Json>>)
    requires Sorted(xs) && forall x :: x in xs ==> x in ys
    ensures |xs| <= |ys|
  {
    if xs != [] {
      var last := |xs| - 1;
      assert xs[last] in ys;
      var j :| 0 <= j < |ys| && ys[j] == xs[last];
      var fewer := ys[..j] + ys[j + 1..];
      forall x | x in xs[..last]
        ensures x in fewer
      {
        var k :| 0 <= k < last && xs[k] == x;
        LessIsAsymmetric(xs[k].key, xs[last].key);
        assert xs[k] in ys;
        var m :| 0 <= m < |ys| && ys[m] == xs[k];
        assert m < j ==> fewer[m] == ys[m];
        assert m > j ==> fewer[m - 1] == ys[m];
      }
      SortedFits(xs[..last], fewer);
    }
  }

  // ---- the canonical form theorem ----

  /** Equal sorted objects: each entry of one has its partner in the other. */
  lemma {:induction false} PartnerEntry(es: seq<Entry<Json>>, fs: seq<Entry<Json>>, i: nat) returns (j: nat)
    requires SortEntries(es) == SortEntries(fs) && i < |es|
    ensures j < |fs| && fs[j].key == es[i].key && SortJson(fs[j].value) == SortJson(es[i].value)
  {
    var x := Entry(es[i].key, SortJson(es[i].value));
    SortEntriesMembers(es, x);
    SortEntriesMembers(fs, x);
    j :| 0 <= j < |fs| && x == Entry(fs[j].key, SortJson(fs[j].value));
  }

  lemma {:induction false} EqualSortsAreSame(a: Json, b: Json)
    requires SortJson(a) == SortJson(b)
    ensures SameUpToOrder(a, b)
    decreases a
  {
    match (a, b)
    case (Array(xs), Array(ys)) =>
      assert |SortItems(xs)| == |SortItems(ys)|;
      forall i | 0 <= i < |xs|
        ensures SameUpToOrder(xs[i], ys[i])
      {
        SortItemsAt(xs, i);
        SortItemsAt(ys, i);
        EqualSortsAreSame(xs[i], ys[i]);
      }
    case (Object(es), Object(fs)) =>
      assert |SortEntries(es)| == |SortEntries(fs)|;
      forall i | 0 <= i < |es|
        ensures exists j :: 0 <= j < |fs| && fs[j].key == es[i].key && SameUpToOrder(es[i].value, fs[j].value)
      {
        var j := PartnerEntry(es, fs, i);
        EqualSortsAreSame(es[i].value, fs[j].value);
      }
    case _ =>
  }

  lemma {:induction false} SameValuesSortAlike(a: Json, b: Json)
    requires WellFormed(a) && WellFormed(b) && SameUpToOrder(a, b)
    ensures SortJson(a) == SortJson(b)
    decreases a
  {
    match (a, b)
    case (Array(xs), Array(ys)) =>
      forall i | 0 <= i < |xs|
        ensures SortItems(xs)[i] == SortItems(ys)[i]
      {
        SortItemsAt(xs, i);
        SortItemsAt(ys, i);
        SameValuesSortAlike(xs[i], ys[i]);
      }
      assert SortItems(xs) == SortItems(ys);
    case (Object(es), Object(fs)) =>
      SortEntriesSorted(es);
      SortEntriesSorted(fs);
      forall x | x in SortEntries(es)
        ensures x in SortEntries(fs)
      {
        SortEntriesMembers(es, x);
        var i :| 0 <= i < |es| && x == Entry(es[i].key, SortJson(es[i].value));
        var j :| 0 <= j < |fs| && fs[j].key == es[i].key && SameUpToOrder(es[i].value, fs[j].value);
        SameValuesSortAlike(es[i].value, fs[j].value);
        SortEntriesMembers(fs, x);
      }
      SortedIsUnique(SortEntries(es), SortEntries(fs));
    case _ =>
  }

  /**
   Sorting is a canonical form: two values sort to the same value exactly when they differ only in key order,
   at any depth.
   */
  lemma {:induction false} SortIsCanonical(a: Json, b: Json)
    requires WellFormed(a) && WellFormed(b)
    ensures SortJson(a) == SortJson(b) <==> SameUpToOrder(a, b)
  {
    if SortJson(a) == SortJson(b) {
      EqualSortsAreSame(a, b);
    }
    if SameUpToOrder(a, b) {
      SameValuesSortAlike(a, b);
    }
  }

  /** Sorting keeps values well formed. */
  lemma {:induction false} SortKeepsWellFormed(v: Json)
    requires WellFormed(v)
    ensures WellFormed(SortJson(v))
    decreases v
  {
    match v
    case Array(items) =>
      forall i | 0 <= i < |items|
        ensures WellFormed(SortItems(items)[i])
      {
        SortItemsAt(items, i);
        SortKeepsWellFormed(items[i]);
      }
    case Object(entries) =>
      var sorted := SortEntries(entries);
      SortEntriesSorted(entries);
      forall i, j | 0 <= i < j < |sorted|
        ensures sorted[i].key != sorted[j].key
      {
        LessIsAsymmetric(sorted[i].key, sorted[j].key);
      }
      forall k | 0 <= k < |sorted|
        ensures WellFormed(sorted[k].value)
      {
        SortEntriesMembers(entries, sorted[k]);
        var i :| 0 <= i < |entries| && sorted[k] == Entry(entries[i].key, SortJson(entries[i].value));
        SortKeepsWellFormed(entries[i].value);
      }
    case _ =>
  }

  /** In every object, at any depth, the keys ascend by code point. */
  ghost predicate KeysAscend(v: Json) {
    match v
    case Array(items) => forall i :: 0 <= i < |items| ==> KeysAscend(items[i])
    case Object(entries) =>
      && (forall i, j :: 0 <= i < j < |entries| ==> Precedes(entries[i].key, entries[j].key))
      && forall i :: 0 <= i < |entries| ==> KeysAscend(entries[i].value)
    case _ => true
  }

  lemma {:induction false} SortedKeysAscend(v: Json)
    requires WellFormed(v)
    ensures KeysAscend(SortJson(v))
    decreases v
  {
    match v
    case Array(items) =>
      forall i | 0 <= i < |items|
        ensures KeysAscend(SortItems(items)[i])
      {
        SortItemsAt(items, i);
        SortedKeysAscend(items[i]);
      }
    case Object(entries) =>
      var sorted := SortEntries(entries);
      SortEntriesSorted(entries);
      forall i, j | 0 <= i < j < |sorted|
        ensures Precedes(sorted[i].key, sorted[j].key)
      {
        LessIsLexicographic(sorted[i].key, sorted[j].key);
      }
      forall k | 0 <= k < |sorted|
        ensures KeysAscend(sorted[k].value)
      {
        SortEntriesMembers(entries, sorted[k]);
        var i :| 0 <= i < |entries| && sorted[k] == Entry(entries[i].key, SortJson(entries[i].value));
        SortedKeysAscend(entries[i].value);
      }
    case _ =>
  }

  /** A value and its sorted form differ only in key order. */
  lemma {:induction false} SortOnlyReorders(v: Json)
    ensures SameUpToOrder(v, SortJson(v))
    decreases v
  {
    match v
    case Array(items) =>
      forall i | 0 <= i < |items|
        ensures SameUpToOrder(items[i], SortItems(items)[i])
      {
        SortItemsAt(items, i);
        SortOnlyReorders(items[i]);
      }
    case Object(entries) =>
      forall i | 0 <= i < |entries|
        ensures SameUpToOrder(entries[i].value, SortJson(entries[i].value))
      {
        SortOnlyReorders(entries[i].value);
      }
      EntriesOnlyReordered(entries);
    case _ =>
  }

  /** Some entry of `others` has the key of `e` and a value that differs from its value only in key order. */
  ghost predicate HasPartner(e: Entry<Json>, others: seq<Entry<Json>>) {
    exists j :: 0 <= j < |others| && others[j].key == e.key && SameUpToOrder(e.value, others[j].value)
  }

  lemma {:induction false} EntriesOnlyReordered(entries: seq<Entry<Json>>)
    requires forall i :: 0 <= i < |entries| ==> SameUpToOrder(entries[i].value, SortJson(entries[i].value))
    ensures SameUpToOrder(Object(entries), Object(SortEntries(entries)))
  {
    forall i | 0 <= i < |entries|
      ensures HasPartner(entries[i], SortEntries(entries))
    {
      EntryHasPartner(entries, i);
    }
  }

  lemma {:induction false} EntryHasPartner(entries: seq<Entry<Json>>, i: nat)
    requires i < |entries| && SameUpToOrder(entries[i].value, SortJson(entries[i].value))
    ensures HasPartner(entries[i], SortEntries(entries))
  {
    var j := SortedPlace(entries, i);
    assert SortEntries(entries)[j].key == entries[i].key
        && SameUpToOrder(entries[i].value, SortEntries(entries)[j].value);
  }

  /** Where entry `i` went. */
  lemma {:induction false} SortedPlace(entries: seq<Entry<Json>>, i: nat) returns (j: nat)
    requires i < |entries|
    ensures j < |SortEntries(entries)|
    ensures SortEntries(entries)[j] == Entry(entries[i].key, SortJson(entries[i].value))
  {
    var x := Entry(entries[i].key, SortJson(entries[i].value));
    SortEntriesMembers(entries, x);
    j :| 0 <= j < |SortEntries(entries)| && SortEntries(entries)[j] == x;
  }

  lemma {:induction false} SortIsIdempotent(v: Json)
    requires WellFormed(v)
    ensures SortJson(SortJson(v)) == SortJson(v)
  {
    SortKeepsWellFormed(v);
    SortOnlyReorders(v);
    SortIsCanonical(v, SortJson(v));
  }
}
