/** Row operators with hashed keys (server/dataflow-row-operations.ts): distinct, deduplicate and
    the buckets of aggregate, against their quadratic definitions. */
module RowOperations {
  import opened Workflow
  import opened KeyValue

  /** A row is a JSON object; the order of its columns plays no part. */
  type Row = map<string, Json>

  /** `Object.entries` sorted by name, values normalised: the key of a whole row. */
  function RowKey(row: Row): map<string, Json> {
    map f | f in row :: Canonical(row[f])
  }

  ghost predicate IsRow(row: Row) {
    forall f :: f in row ==> IsJson(row[f])
  }

  /** Two rows are the same up to the order of keys, at every depth. */
  ghost predicate SameRow(a: Row, b: Row) {
    a.Keys == b.Keys && forall f :: f in a ==> f in b && Same(a[f], b[f])
  }

  lemma RowKeyIffSame(a: Row, b: Row)
    requires IsRow(a) && IsRow(b)
    ensures RowKey(a) == RowKey(b) <==> SameRow(a, b)
  {
    forall f | f in a && f in b
      ensures RowKey(a)[f] == RowKey(b)[f] <==> Same(a[f], b[f])
    {
      CanonicalIffSame(a[f], b[f]);
    }
    assert RowKey(a).Keys == a.Keys && RowKey(b).Keys == b.Keys;
    if SameRow(a, b) {
      assert forall f :: f in RowKey(a) ==> f in RowKey(b) && RowKey(a)[f] == RowKey(b)[f];
    }
    if RowKey(a) == RowKey(b) {
      assert forall f :: f in a ==> f in RowKey(a);
    }
  }

  // ----- keeping first occurrences

  /** No earlier row has the key of row `i`. */
  ghost predicate IsFirst<K(!new)>(keys: seq<K>, i: nat)
    requires i < |keys|
  {
    forall j :: 0 <= j < i ==> keys[j] != keys[i]
  }

  /** `at` lists, in order, exactly the positions where a key occurs first. */
  ghost predicate FirstPositions<K(!new)>(keys: seq<K>, at: seq<nat>) {
    && (forall i, j :: 0 <= i < j < |at| ==> at[i] < at[j])
    && (forall i :: 0 <= i < |at| ==> at[i] < |keys|)
    && (forall i :: 0 <= i < |keys| ==> (i in at <==> IsFirst(keys, i)))
  }

  /** Reading one more key. */
  lemma FirstPositionsSnoc<K(!new)>(keys: seq<K>, at: seq<nat>, key: K)
    requires FirstPositions(keys, at)
    ensures FirstPositions(keys + [key], if key in keys then at else at + [|keys|])
  {
    var more := keys + [key];
    forall i | 0 <= i < |keys| ensures IsFirst(more, i) <==> IsFirst(keys, i) {
      assert forall j :: 0 <= j <= i ==> more[j] == keys[j];
    }
    assert forall j :: 0 <= j < |keys| ==> more[j] == keys[j];
    assert IsFirst(more, |keys|) <==> key !in keys;
    assert |keys| !in at;
  }

  function Select(rows: seq<Row>, at: seq<nat>): (r: seq<Row>)
    requires forall i :: 0 <= i < |at| ==> at[i] < |rows|
    ensures |r| == |at| && forall i :: 0 <= i < |at| ==> r[i] == rows[at[i]]
  {
    if at == [] then [] else [rows[at[0]]] + Select(rows, at[1..])
  }

  /** What keeping first occurrences means: one representative per key, the earliest one. */
  lemma FirstsRepresentEveryKey<K(!new)>(keys: seq<K>, at: seq<nat>, i: nat)
    requires FirstPositions(keys, at) && i < |keys|
    ensures exists k :: 0 <= k < |at| && at[k] <= i && keys[at[k]] == keys[i]
    ensures forall k, m :: 0 <= k < m < |at| ==> keys[at[k]] != keys[at[m]]
    decreases i
  {
    forall k, m | 0 <= k < m < |at| ensures keys[at[k]] != keys[at[m]] {
      assert at[m] in at && IsFirst(keys, at[m]);
    }
    if IsFirst(keys, i) {
      assert i in at;
    } else {
      var j :| 0 <= j < i && keys[j] == keys[i];
      FirstsRepresentEveryKey(keys, at, j);
      var k :| 0 <= k < |at| && at[k] <= j && keys[at[k]] == keys[j];
      assert at[k] <= i;
    }
  }

  function KeysOf<K>(rows: seq<Row>, keyOf: Row -> K): (r: seq<K>)
    ensures |r| == |rows| && forall i :: 0 <= i < |rows| ==> r[i] == keyOf(rows[i])
  {
    if rows == [] then [] else [keyOf(rows[0])] + KeysOf(rows[1..], keyOf)
  }

  /** The filter has seen the first `i` keys and kept the rows where a key was new. */
  ghost predicate Kept<K(!new)>(keys: seq<K>, rows: seq<Row>, i: nat, at: seq<nat>, kept: seq<Row>, seen: set<K>) {
    && i <= |keys| == |rows| && FirstPositions(keys[..i], at) && kept == Select(rows, at)
    && forall k :: k in seen <==> k in keys[..i]
  }

  lemma KeptSnoc<K(!new)>(keys: seq<K>, rows: seq<Row>, i: nat, at: seq<nat>, kept: seq<Row>, seen: set<K>)
    requires i < |keys| && Kept(keys, rows, i, at, kept, seen)
    ensures i < |rows|
    ensures if keys[i] in seen then Kept(keys, rows, i + 1, at, kept, seen)
            else Kept(keys, rows, i + 1, at + [i], kept + [rows[i]], seen + {keys[i]})
  {
    hide FirstPositions, Select;
    FirstPositionsSnoc(keys[..i], at, keys[i]);
    assert keys[..i + 1] == keys[..i] + [keys[i]];
    PositionsBelow(keys[..i], at, i);
    SelectSnoc(rows, at, i);
    assert keys[i] in seen <==> keys[i] in keys[..i];
    assert forall k :: k in keys[..i + 1] <==> k in keys[..i] || k == keys[i];
  }

  lemma PositionsBelow<K(!new)>(keys: seq<K>, at: seq<nat>, n: nat)
    requires FirstPositions(keys, at) && |keys| == n
    ensures forall k :: 0 <= k < |at| ==> at[k] < n
  {
  }

  lemma KeptAll<K(!new)>(keys: seq<K>, rows: seq<Row>, at: seq<nat>, kept: seq<Row>, seen: set<K>)
    requires Kept(keys, rows, |rows|, at, kept, seen)
    ensures FirstPositions(keys, at) && kept == Select(rows, at)
  {
    assert keys[..|rows|] == keys;
  }

  /** The filter loop shared by both operators: keep a row when its key has not been seen, stop at
      a row that has no key. */
  method KeepFirsts<K(==,!new)>(rows: seq<Row>, keyOf: Row -> Option<K>)
    returns (kept: seq<Row>, failed: Option<nat>, ghost at: seq<nat>)
    ensures failed.None? ==> FirstPositions(KeysOf(rows, keyOf), at) && kept == Select(rows, at)
    ensures match failed
            case None => forall i :: 0 <= i < |rows| ==> keyOf(rows[i]).Some?
            case Some(n) => n < |rows| && keyOf(rows[n]).None? && forall i :: 0 <= i < n ==> keyOf(rows[i]).Some?
  {
    var seen: set<Option<K>> := {};
    ghost var keys := KeysOf(rows, keyOf);
    kept, at := [], [];
    var i := 0;
    assert Kept(keys, rows, 0, at, kept, seen);
    hide Kept, FirstPositions, Select;
    while i < |rows|
      invariant i <= |rows| && Kept(keys, rows, i, at, kept, seen)
      invariant forall j :: 0 <= j < i ==> keyOf(rows[j]).Some?
    {
      var key := keyOf(rows[i]);
      if key.None? { return kept, Some(i), at; }
      KeptSnoc(keys, rows, i, at, kept, seen);
      if key !in seen {
        kept, at, seen := kept + [rows[i]], at + [i], seen + {key};
      }
      i := i + 1;
    }
    KeptAll(keys, rows, at, kept, seen);
    failed := None;
  }

  function WholeRow(): Row -> Option<map<string, Json>> {
    (row: Row) => Some(RowKey(row))
  }

  ghost predicate AllRows(rows: seq<Row>) {
    forall i :: 0 <= i < |rows| ==> IsRow(rows[i])
  }

  /** No earlier row is the same. */
  ghost predicate IsNewRow(rows: seq<Row>, i: nat)
    requires i < |rows|
  {
    forall j :: 0 <= j < i ==> !SameRow(rows[j], rows[i])
  }

  /** Comparing hashed keys finds exactly the rows that comparing all pairs of rows would find. */
  lemma DistinctIsPairwise(rows: seq<Row>, at: seq<nat>)
    requires AllRows(rows) && FirstPositions(KeysOf(rows, WholeRow()), at)
    ensures forall i :: 0 <= i < |rows| ==> (i in at <==> IsNewRow(rows, i))
  {
    var keys := KeysOf(rows, WholeRow());
    forall i, j | 0 <= j < i < |rows|
      ensures keys[j] == keys[i] <==> SameRow(rows[j], rows[i])
    {
      WholeRowIffSame(rows[j], rows[i]);
    }
    hide SameRow, WholeRow, KeysOf, IsRow;
  }

  lemma WholeRowIffSame(a: Row, b: Row)
    requires IsRow(a) && IsRow(b)
    ensures WholeRow()(a) == WholeRow()(b) <==> SameRow(a, b)
  {
    RowKeyIffSame(a, b);
    hide RowKey, SameRow;
  }

  /** `distinctDataflowRows`. */
  method DistinctRows(rows: seq<Row>) returns (kept: seq<Row>, ghost at: seq<nat>)
    ensures FirstPositions(KeysOf(rows, WholeRow()), at) && kept == Select(rows, at)
    ensures AllRows(rows) ==> forall i :: 0 <= i < |rows| ==> (i in at <==> IsNewRow(rows, i))
  {
    var failed;
    kept, failed, at := KeepFirsts(rows, WholeRow());
    if AllRows(rows) {
      DistinctIsPairwise(rows, at);
    }
  }

  lemma SelectSnoc(rows: seq<Row>, at: seq<nat>, i: nat)
    requires (forall k :: 0 <= k < |at| ==> at[k] < |rows|) && i < |rows|
    ensures Select(rows, at + [i]) == Select(rows, at) + [rows[i]]
  {
  }

  // ----- deduplicate

  datatype Failure = MissingKey(row: nat, field: string)

  ghost predicate HasAll(row: Row, fields: seq<string>) {
    forall k :: 0 <= k < |fields| ==> fields[k] in row
  }

  /** The values a row has under the business keys, normalised. */
  function BusinessKey(row: Row, fields: seq<string>): (r: seq<Json>)
    ensures |r| == |fields|
    ensures forall k :: 0 <= k < |fields| ==> r[k] == if fields[k] in row then Canonical(row[fields[k]]) else Null
  {
    if fields == [] then []
    else [if fields[0] in row then Canonical(row[fields[0]]) else Null] + BusinessKey(row, fields[1..])
  }

  /** Two rows are the same in all key fields, up to object key order. */
  ghost predicate SameFields(a: Row, b: Row, fields: seq<string>) {
    forall k :: 0 <= k < |fields| ==> fields[k] in a && fields[k] in b && Same(a[fields[k]], b[fields[k]])
  }

  /** Business keys are equal exactly when all their fields are the same up to object key order. */
  lemma BusinessKeyIffSame(a: Row, b: Row, fields: seq<string>)
    requires IsRow(a) && IsRow(b) && HasAll(a, fields) && HasAll(b, fields)
    ensures BusinessKey(a, fields) == BusinessKey(b, fields) <==> SameFields(a, b, fields)
  {
    forall k | 0 <= k < |fields|
      ensures BusinessKey(a, fields)[k] == BusinessKey(b, fields)[k] <==> Same(a[fields[k]], b[fields[k]])
    {
      CanonicalIffSame(a[fields[k]], b[fields[k]]);
    }
  }

  /** The first business key a row lacks. */
  function FirstMissing(row: Row, fields: seq<string>): (r: Option<string>)
    ensures r.None? <==> HasAll(row, fields)
    ensures r.Some? ==> r.value in fields && r.value !in row
  {
    if fields == [] then None else if fields[0] !in row then Some(fields[0]) else FirstMissing(row, fields[1..])
  }

  function BusinessFields(fields: seq<string>): Row -> Option<seq<Json>> {
    (row: Row) => if FirstMissing(row, fields).None? then Some(BusinessKey(row, fields)) else None
  }

  /** No earlier row is the same in the key fields. */
  ghost predicate IsNewIn(rows: seq<Row>, i: nat, fields: seq<string>)
    requires i < |rows|
  {
    forall j :: 0 <= j < i ==> !SameFields(rows[j], rows[i], fields)
  }

  /** Business keys, too, find exactly what comparing all pairs of rows would find. */
  lemma DeduplicateIsPairwise(rows: seq<Row>, fields: seq<string>, at: seq<nat>)
    requires AllRows(rows) && forall i :: 0 <= i < |rows| ==> HasAll(rows[i], fields)
    requires FirstPositions(KeysOf(rows, BusinessFields(fields)), at)
    ensures forall i :: 0 <= i < |rows| ==> (i in at <==> IsNewIn(rows, i, fields))
  {
    hide BusinessKey, SameFields;
    var keys := KeysOf(rows, BusinessFields(fields));
    forall i, j | 0 <= j < i < |rows|
      ensures keys[j] == keys[i] <==> SameFields(rows[j], rows[i], fields)
    {
      BusinessKeyIffSame(rows[j], rows[i], fields);
    }
  }

  /** `deduplicateDataflowRows`: fails at the first row that lacks a key field. */
  method DeduplicateRows(rows: seq<Row>, fields: seq<string>) returns (r: Result<seq<Row>, Failure>, ghost at: seq<nat>)
    ensures r.Ok? <==> forall i :: 0 <= i < |rows| ==> HasAll(rows[i], fields)
    ensures r.Ok? ==> FirstPositions(KeysOf(rows, BusinessFields(fields)), at) && r.value == Select(rows, at)
    ensures r.Ok? && AllRows(rows) ==> forall i :: 0 <= i < |rows| ==> (i in at <==> IsNewIn(rows, i, fields))
    ensures r.Err? ==> r.error.row < |rows| && FirstMissing(rows[r.error.row], fields) == Some(r.error.field)
    ensures r.Err? ==> forall i :: 0 <= i < r.error.row ==> HasAll(rows[i], fields)
  {
    var kept, failed;
    kept, failed, at := KeepFirsts(rows, BusinessFields(fields));
    if failed.None? && AllRows(rows) {
      assert forall i :: 0 <= i < |rows| ==> BusinessFields(fields)(rows[i]).Some?;
      DeduplicateIsPairwise(rows, fields, at);
    }
    r := if failed.None? then Ok(kept) else Err(MissingKey(failed.value, FirstMissing(rows[failed.value], fields).value));
  }

  // ----- the buckets of aggregate

  /** The insertion-ordered `Map`: `order` holds its keys as they were first set. */
  datatype Groups<K> = Groups(order: seq<K>, buckets: map<K, seq<Row>>)

  function KeyIs<K(==)>(keyOf: Row -> K, key: K): Row -> bool {
    (row: Row) => keyOf(row) == key
  }

  /** Every bucket holds, in order, exactly the rows with its key. */
  ghost predicate Grouped<K(!new)>(g: Groups<K>, rows: seq<Row>, keyOf: Row -> K) {
    && Distinct(g.order)
    && (forall key :: key in g.order <==> key in g.buckets)
    && (forall key :: key in g.buckets ==> g.buckets[key] == Filter(rows, KeyIs(keyOf, key)))
    && (forall row :: row in rows ==> keyOf(row) in g.buckets)
  }

  /** `groups.get(key) ?? []`, pushed and set. */
  function Push<K(==)>(g: Groups<K>, key: K, row: Row): Groups<K> {
    var bucket := if key in g.buckets then g.buckets[key] else [];
    Groups(if key in g.buckets then g.order else g.order + [key], g.buckets[key := bucket + [row]])
  }

  lemma PushKeepsGrouped<K(!new)>(g: Groups<K>, rows: seq<Row>, row: Row, keyOf: Row -> K)
    requires Grouped(g, rows, keyOf)
    ensures Grouped(Push(g, keyOf(row), row), rows + [row], keyOf)
  {
    var key, h := keyOf(row), Push(g, keyOf(row), row);
    forall k | k in h.buckets
      ensures h.buckets[k] == Filter(rows + [row], KeyIs(keyOf, k))
    {
      FilterSnoc(rows, row, KeyIs(keyOf, k));
      if k !in g.buckets { NoneWithKey(rows, key, keyOf); }
    }
  }

  lemma {:induction false} NoneWithKey<K(!new)>(rows: seq<Row>, key: K, keyOf: Row -> K)
    requires forall row :: row in rows ==> keyOf(row) != key
    ensures Filter(rows, KeyIs(keyOf, key)) == []
  {
    if rows != [] { NoneWithKey(rows[1..], key, keyOf); }
  }

  /** The grouping loop of `aggregateDataflowRows`; `whole` is the key of the group that exists
      beforehand, when there are no group fields. */
  method GroupRows<K(==,!new)>(rows: seq<Row>, keyOf: Row -> K, whole: Option<K>) returns (g: Groups<K>)
    ensures Grouped(g, rows, keyOf)
    ensures g.order == FirstKeys(rows, keyOf, whole)
  {
    g := if whole.Some? then Groups([whole.value], map[whole.value := []]) else Groups([], map[]);
    var i := 0;
    assert Grouped(g, rows[..0], keyOf) && g.order == FirstKeys(rows[..0], keyOf, whole);
    hide Grouped, FirstKeys, Push;
    while i < |rows|
      invariant i <= |rows| && Grouped(g, rows[..i], keyOf) && g.order == FirstKeys(rows[..i], keyOf, whole)
    {
      NextGroup(g, rows, keyOf, whole, i);
      g := Push(g, keyOf(rows[i]), rows[i]);
      i := i + 1;
    }
    assert rows[..|rows|] == rows;
  }

  lemma NextGroup<K(!new)>(g: Groups<K>, rows: seq<Row>, keyOf: Row -> K, whole: Option<K>, i: nat)
    requires i < |rows| && Grouped(g, rows[..i], keyOf) && g.order == FirstKeys(rows[..i], keyOf, whole)
    ensures Grouped(Push(g, keyOf(rows[i]), rows[i]), rows[..i + 1], keyOf)
    ensures Push(g, keyOf(rows[i]), rows[i]).order == FirstKeys(rows[..i + 1], keyOf, whole)
  {
    PushKeepsGrouped(g, rows[..i], rows[i], keyOf);
    assert rows[..i + 1] == rows[..i] + [rows[i]];
    assert rows[..i + 1][..i] == rows[..i];
  }

  /** The distinct keys in the order of their first row. */
  function FirstKeys<K(==)>(rows: seq<Row>, keyOf: Row -> K, whole: Option<K>): seq<K> {
    if rows == [] then if whole.Some? then [whole.value] else []
    else
      var before := FirstKeys(rows[..|rows| - 1], keyOf, whole);
      var key := keyOf(rows[|rows| - 1]);
      if key in before then before else before + [key]
  }

  /** Groups by business key; a missing field groups with null, and no fields make one group. */
  method AggregateGroups(rows: seq<Row>, fields: seq<string>) returns (g: Groups<seq<Json>>)
    ensures Grouped(g, rows, BusinessKeyOf(fields))
    ensures g.order == FirstKeys(rows, BusinessKeyOf(fields), if fields == [] then Some([]) else None)
    ensures fields == [] ==> g.order == [[]] && g.buckets == map[[] := rows]
  {
    g := GroupRows(rows, BusinessKeyOf(fields), if fields == [] then Some([]) else None);
    if fields == [] { OneGroup(g, rows); }
  }

  function BusinessKeyOf(fields: seq<string>): Row -> seq<Json> {
    (row: Row) => BusinessKey(row, fields)
  }

  lemma OneGroup(g: Groups<seq<Json>>, rows: seq<Row>)
    requires Grouped(g, rows, BusinessKeyOf([])) && g.order == FirstKeys(rows, BusinessKeyOf([]), Some([]))
    ensures g.order == [[]] && g.buckets == map[[] := rows]
  {
    OneKey(rows);
    FilterAll(rows, KeyIs(BusinessKeyOf([]), []));
    assert g.order[0] == [];
    assert forall key :: key in g.buckets <==> key == [];
  }

  lemma {:induction false} OneKey(rows: seq<Row>)
    ensures FirstKeys(rows, BusinessKeyOf([]), Some([])) == [[]]
  {
    if rows != [] {
      OneKey(rows[..|rows| - 1]);
      assert [[]][0] == BusinessKeyOf([])(rows[|rows| - 1]);
    }
  }

  function CountIn<K(==)>(g: Groups<K>, order: seq<K>, p: Row -> bool): nat
    requires forall key :: key in order ==> key in g.buckets
  {
    if order == [] then 0 else |Filter(g.buckets[order[0]], p)| + CountIn(g, order[1..], p)
  }

  /** Conservation: whatever is counted per group adds up to its count over all rows, so the
      buckets neither lose nor double a row. */
  lemma CountsAreConserved<K(!new)>(g: Groups<K>, rows: seq<Row>, keyOf: Row -> K, p: Row -> bool)
    requires Grouped(g, rows, keyOf)
    ensures CountIn(g, g.order, p) == |Filter(rows, p)|
  {
    CountsOver(g, g.order, rows, keyOf, p);
    FilterAll(rows, KeyAmong(keyOf, g.order));
  }

  function KeyAmong<K(==)>(keyOf: Row -> K, order: seq<K>): Row -> bool {
    (row: Row) => keyOf(row) in order
  }

  lemma {:induction false} CountsOver<K(!new)>(g: Groups<K>, order: seq<K>, rows: seq<Row>, keyOf: Row -> K, p: Row -> bool)
    requires Distinct(order) && forall key :: key in order ==> key in g.buckets && g.buckets[key] == Filter(rows, KeyIs(keyOf, key))
    ensures CountIn(g, order, p) == |Filter(Filter(rows, KeyAmong(keyOf, order)), p)|
    decreases |order|
  {
    if order == [] {
      FilterNone(rows, KeyAmong(keyOf, order));
    } else {
      CountsOver(g, order[1..], rows, keyOf, p);
      SplitCount(rows, keyOf, order, p);
    }
  }

  lemma {:induction false} FilterAll(rows: seq<Row>, p: Row -> bool)
    requires forall row :: row in rows ==> p(row)
    ensures Filter(rows, p) == rows
  {
    if rows != [] { FilterAll(rows[1..], p); }
  }

  lemma {:induction false} FilterNone(rows: seq<Row>, p: Row -> bool)
    requires forall row :: row in rows ==> !p(row)
    ensures Filter(rows, p) == []
  {
    if rows != [] { FilterNone(rows[1..], p); }
  }

  lemma {:induction false} SplitCount<K(!new)>(rows: seq<Row>, keyOf: Row -> K, order: seq<K>, p: Row -> bool)
    requires order != [] && Distinct(order)
    ensures |Filter(Filter(rows, KeyAmong(keyOf, order)), p)| ==
            |Filter(Filter(rows, KeyIs(keyOf, order[0])), p)| + |Filter(Filter(rows, KeyAmong(keyOf, order[1..])), p)|
    decreases |rows|
  {
    if rows != [] {
      SplitCount(rows[1..], keyOf, order, p);
      var key := keyOf(rows[0]);
      assert order == [order[0]] + order[1..];
      assert key in order <==> key == order[0] || key in order[1..];
      assert order[0] !in order[1..];
      FilterConcat(if key in order then [rows[0]] else [], Filter(rows[1..], KeyAmong(keyOf, order)), p);
      FilterConcat(if key == order[0] then [rows[0]] else [], Filter(rows[1..], KeyIs(keyOf, order[0])), p);
      FilterConcat(if key in order[1..] then [rows[0]] else [], Filter(rows[1..], KeyAmong(keyOf, order[1..])), p);
    }
  }
}
