/** The key normal form of server/dataflow-key-value.ts: JSON values are compared after sorting the
    entries of every object, which identifies exactly the values equal up to object key order. */
module KeyValue {
  import opened Workflow
  import opened Sorting

  /** Numbers and texts only matter up to equality; keys are ranks in a strict total order. */
  datatype Json = Null | Flag(on: bool) | Number(number: real) | Text(text: string)
                | Array(items: seq<Json>) | Object(entries: seq<Entry>)

  datatype Entry = Entry(key: Id, value: Json)

  function KeyOf(): Entry -> int {
    (e: Entry) => e.key
  }

  /** `canonicalValue`.  Sorting by key commutes with rewriting the values. */
  function Canonical(v: Json): Json
    decreases v
  {
    match v
    case Array(items) => Array(CanonicalItems(items))
    case Object(entries) => Object(Sort(CanonicalEntries(entries), KeyOf()))
    case _ => v
  }

  function CanonicalItems(items: seq<Json>): (r: seq<Json>)
    ensures |r| == |items|
    decreases items
  {
    if items == [] then [] else [Canonical(items[0])] + CanonicalItems(items[1..])
  }

  function CanonicalEntries(entries: seq<Entry>): (r: seq<Entry>)
    ensures |r| == |entries|
    decreases entries
  {
    if entries == [] then []
    else [CanonicalEntry(entries[0])] + CanonicalEntries(entries[1..])
  }

  function CanonicalEntry(e: Entry): Entry
    decreases e
  {
    Entry(e.key, Canonical(e.value))
  }

  /** A JSON value: no object has a key twice. */
  ghost predicate IsJson(v: Json)
    decreases v
  {
    match v
    case Array(items) => forall i :: 0 <= i < |items| ==> IsJson(items[i])
    case Object(entries) => DistinctKeys(entries, KeyOf()) && forall i :: 0 <= i < |entries| ==> IsJson(entries[i].value)
    case _ => true
  }

  ghost predicate HasKey(entries: seq<Entry>, key: Id) {
    exists j :: 0 <= j < |entries| && entries[j].key == key
  }

  /** Equality up to the order of object keys, at every depth. */
  ghost predicate Same(a: Json, b: Json)
    decreases a
  {
    match a
    case Array(items) =>
      b.Array? && |items| == |b.items| && forall i :: 0 <= i < |items| ==> Same(items[i], b.items[i])
    case Object(entries) =>
      && b.Object?
      && (forall key :: HasKey(entries, key) <==> HasKey(b.entries, key))
      && (forall i, j :: 0 <= i < |entries| && 0 <= j < |b.entries| && entries[i].key == b.entries[j].key ==>
                           Same(entries[i].value, b.entries[j].value))
    case _ => a == b
  }

  lemma {:induction false} ItemsAt(items: seq<Json>, i: nat)
    requires i < |items|
    ensures CanonicalItems(items)[i] == Canonical(items[i])
  {
    if i > 0 { ItemsAt(items[1..], i - 1); }
  }

  lemma {:induction false} EntriesAt(entries: seq<Entry>, i: nat)
    requires i < |entries|
    ensures CanonicalEntries(entries)[i] == CanonicalEntry(entries[i])
  {
    if i > 0 { EntriesAt(entries[1..], i - 1); }
  }

  lemma CanonicalKeysDistinct(entries: seq<Entry>)
    requires DistinctKeys(entries, KeyOf())
    ensures DistinctKeys(CanonicalEntries(entries), KeyOf())
  {
    forall i | 0 <= i < |entries| ensures CanonicalEntries(entries)[i].key == entries[i].key { EntriesAt(entries, i); }
    assert forall i, j :: 0 <= i < j < |entries| ==> KeyOf()(entries[i]) != KeyOf()(entries[j]);
  }

  /** Two lists of entries with distinct keys and the same members are permutations of each other. */
  lemma {:induction false} SameEntriesSameMultiset(a: seq<Entry>, b: seq<Entry>)
    requires DistinctKeys(a, KeyOf()) && DistinctKeys(b, KeyOf())
    requires forall x :: x in a <==> x in b
    ensures multiset(a) == multiset(b)
  {
    forall x
      ensures multiset(a)[x] == multiset(b)[x]
    {
      Multiplicity(a, x);
      Multiplicity(b, x);
    }
  }

  lemma Multiplicity(a: seq<Entry>, x: Entry)
    requires DistinctKeys(a, KeyOf())
    ensures multiset(a)[x] == if x in a then 1 else 0
  {
    if x in a {
      var i :| 0 <= i < |a| && a[i] == x;
      OccursOnce(a, i, KeyOf());
    }
  }

  /** The normal form is exact: equal for, and only for, values equal up to key order. */
  lemma {:induction false} CanonicalIffSame(a: Json, b: Json)
    requires IsJson(a) && IsJson(b)
    ensures Canonical(a) == Canonical(b) <==> Same(a, b)
    decreases a
  {
    if a.Array? && b.Array? {
      ArraysIff(a, b);
    } else if a.Object? && b.Object? {
      if Same(a, b) { ObjectsForward(a, b); }
      if Canonical(a) == Canonical(b) { ObjectsBackward(a, b); }
    }
  }

  lemma {:induction false} ArraysIff(a: Json, b: Json)
    requires IsJson(a) && IsJson(b) && a.Array? && b.Array?
    ensures Canonical(a) == Canonical(b) <==> Same(a, b)
    decreases a, 0
  {
    if |a.items| == |b.items| {
      forall i | 0 <= i < |a.items|
        ensures CanonicalItems(a.items)[i] == CanonicalItems(b.items)[i] <==> Same(a.items[i], b.items[i])
      {
        ItemsAt(a.items, i);
        ItemsAt(b.items, i);
        CanonicalIffSame(a.items[i], b.items[i]);
      }
    }
  }

  lemma {:induction false} ObjectsForward(a: Json, b: Json)
    requires IsJson(a) && IsJson(b) && a.Object? && b.Object? && Same(a, b)
    ensures Canonical(a) == Canonical(b)
    decreases a, 0
  {
    var ca, cb := CanonicalEntries(a.entries), CanonicalEntries(b.entries);
    CanonicalKeysDistinct(a.entries);
    CanonicalKeysDistinct(b.entries);
    forall x
      ensures x in ca <==> x in cb
    {
      if x in ca {
        var i :| 0 <= i < |ca| && ca[i] == x;
        EntriesAt(a.entries, i);
        assert HasKey(a.entries, x.key);
        var j :| 0 <= j < |b.entries| && b.entries[j].key == x.key;
        CanonicalIffSame(a.entries[i].value, b.entries[j].value);
        EntriesAt(b.entries, j);
        assert cb[j] == x;
      }
      if x in cb {
        var j :| 0 <= j < |cb| && cb[j] == x;
        EntriesAt(b.entries, j);
        assert HasKey(b.entries, x.key);
        var i :| 0 <= i < |a.entries| && a.entries[i].key == x.key;
        CanonicalIffSame(a.entries[i].value, b.entries[j].value);
        EntriesAt(a.entries, i);
        assert ca[i] == x;
      }
    }
    SameEntriesSameMultiset(ca, cb);
    SortPermutation(ca, cb, KeyOf());
  }

  lemma {:induction false} ObjectsBackward(a: Json, b: Json)
    requires IsJson(a) && IsJson(b) && a.Object? && b.Object? && Canonical(a) == Canonical(b)
    ensures Same(a, b)
    decreases a, 0
  {
    var ca, cb := CanonicalEntries(a.entries), CanonicalEntries(b.entries);
    SortCorrect(ca, KeyOf());
    SortCorrect(cb, KeyOf());
    SameMultisetSameMembers(ca, cb);
    CanonicalKeysDistinct(a.entries);
    CanonicalKeysDistinct(b.entries);
    forall key ensures HasKey(a.entries, key) <==> HasKey(b.entries, key) {
      KeysKept(a.entries, key);
      KeysKept(b.entries, key);
      SameMembersSameKeys(ca, cb, key);
      SameMembersSameKeys(cb, ca, key);
    }
    forall i, j | 0 <= i < |a.entries| && 0 <= j < |b.entries| && a.entries[i].key == b.entries[j].key
      ensures Same(a.entries[i].value, b.entries[j].value)
    {
      EntriesAt(a.entries, i);
      EntriesAt(b.entries, j);
      assert ca[i] in cb;
      var k :| 0 <= k < |cb| && cb[k] == ca[i];
      assert KeyOf()(cb[k]) == KeyOf()(cb[j]);
      CanonicalIffSame(a.entries[i].value, b.entries[j].value);
    }
  }

  lemma SameMembersSameKeys(a: seq<Entry>, b: seq<Entry>, key: Id)
    requires forall x :: x in a ==> x in b
    ensures HasKey(a, key) ==> HasKey(b, key)
  {
    if HasKey(a, key) {
      var i :| 0 <= i < |a| && a[i].key == key;
      assert a[i] in b;
    }
  }

  lemma KeysKept(entries: seq<Entry>, key: Id)
    ensures HasKey(entries, key) <==> HasKey(CanonicalEntries(entries), key)
  {
    forall i | 0 <= i < |entries| ensures CanonicalEntries(entries)[i].key == entries[i].key { EntriesAt(entries, i); }
  }
}
