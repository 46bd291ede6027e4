/** Typed multi-field sorting (server/dataflow-sort-rows.ts): the comparator is a total preorder,
    and its stable ordered permutation of the input is unique. */
module RowSort {
  import opened Workflow

  /** A field's value as far as sorting looks at it.  Texts, lists and records carry the rank of
      their (normalised, serialised) text in code-unit order. */
  datatype Cell = Absent | Finite(number: real) | Text(order: int) | Flag(on: bool)
                | List(order: int) | Record(order: int) | Unsupported

  datatype SortKey = SortKey(rank: nat, value: real)

  datatype Field = Field(name: string, descending: bool)

  datatype SortError = Unsortable(row: nat, field: string)

  /** A row: what each field name holds. */
  type Row = map<string, Cell>

  /** `sortValue`: the type ranks keep values of different types apart. */
  function SortValue(c: Cell): Option<SortKey> {
    match c
    case Absent => Some(SortKey(0, 0.0))
    case Finite(number) => Some(SortKey(1, number))
    case Text(order) => Some(SortKey(2, order as real))
    case Flag(on) => Some(SortKey(3, if on then 1.0 else 0.0))
    case List(order) => Some(SortKey(4, order as real))
    case Record(order) => Some(SortKey(5, order as real))
    case Unsupported => None
  }

  function CellOf(row: Row, field: string): Cell {
    if field in row then row[field] else Absent
  }

  /** The precomputed keys of one row, or the first field with an unsupported value. */
  function KeysOf(row: Row, fields: seq<Field>): Result<seq<SortKey>, string> {
    if fields == [] then Ok([])
    else
      match SortValue(CellOf(row, fields[0].name))
      case None => Err(fields[0].name)
      case Some(key) =>
        match KeysOf(row, fields[1..])
        case Err(field) => Err(field)
        case Ok(rest) => Ok([key] + rest)
  }

  // ----- the comparator

  function Order(a: SortKey, b: SortKey): int {
    if a.rank != b.rank then a.rank - b.rank
    else if a.value == b.value then 0 else if a.value < b.value then -1 else 1
  }

  /** The comparison loop over the fields. */
  function Compare(a: seq<SortKey>, b: seq<SortKey>, fields: seq<Field>): int
    requires |a| == |b| == |fields|
  {
    if fields == [] then 0
    else if Order(a[0], b[0]) != 0 then Order(a[0], b[0]) * (if fields[0].descending then -1 else 1)
    else Compare(a[1..], b[1..], fields[1..])
  }

  method CompareKeys(a: seq<SortKey>, b: seq<SortKey>, fields: seq<Field>) returns (order: int)
    requires |a| == |b| == |fields|
    ensures order == Compare(a, b, fields)
  {
    var index := 0;
    assert a[0..] == a && b[0..] == b && fields[0..] == fields;
    while index < |fields|
      invariant index <= |fields| && Compare(a, b, fields) == Compare(a[index..], b[index..], fields[index..])
    {
      order := Order(a[index], b[index]);
      if order != 0 { return order * if fields[index].descending then -1 else 1; }
      assert a[index..][1..] == a[index + 1..] && b[index..][1..] == b[index + 1..] && fields[index..][1..] == fields[index + 1..];
      index := index + 1;
    }
    order := 0;
  }

  /** Total, antisymmetric and transitive for any number of fields and any directions; equal exactly
      when every field's key is equal. */
  lemma {:induction false} CompareIsTotalPreorder(a: seq<SortKey>, b: seq<SortKey>, c: seq<SortKey>, fields: seq<Field>)
    requires |a| == |b| == |c| == |fields|
    ensures Compare(a, b, fields) < 0 <==> Compare(b, a, fields) > 0
    ensures Compare(a, b, fields) == 0 <==> a == b
    ensures Compare(a, b, fields) <= 0 && Compare(b, c, fields) <= 0 ==> Compare(a, c, fields) <= 0
    decreases |fields|
  {
    if fields == [] {
    } else {
      CompareIsTotalPreorder(a[1..], b[1..], c[1..], fields[1..]);
      CompareIsTotalPreorder(b[1..], a[1..], c[1..], fields[1..]);
      assert a == b <==> a[0] == b[0] && a[1..] == b[1..] by {
        assert a == [a[0]] + a[1..] && b == [b[0]] + b[1..];
      }
      CompareHead(a, b, fields);
      CompareHead(b, a, fields);
      CompareHead(b, c, fields);
      CompareHead(a, c, fields);
      hide Compare;
    }
  }

  function Sign(x: int): int {
    if x < 0 then -1 else if x > 0 then 1 else 0
  }

  lemma CompareHead(a: seq<SortKey>, b: seq<SortKey>, fields: seq<Field>)
    requires |a| == |b| == |fields| && fields != []
    ensures var o := if fields[0].descending then Order(b[0], a[0]) else Order(a[0], b[0]);
            Sign(Compare(a, b, fields)) == if o != 0 then Sign(o) else Sign(Compare(a[1..], b[1..], fields[1..]))
  {
  }

  // ----- stable sorting

  /** `i` belongs before `j`: a smaller key, or an equal one and an earlier row, whatever the directions. */
  predicate Before(keys: seq<seq<SortKey>>, fields: seq<Field>, i: nat, j: nat)
    requires i < |keys| && j < |keys| && |keys[i]| == |keys[j]| == |fields|
  {
    Compare(keys[i], keys[j], fields) < 0 || (Compare(keys[i], keys[j], fields) == 0 && i < j)
  }

  predicate Keyed(keys: seq<seq<SortKey>>, fields: seq<Field>) {
    forall i :: 0 <= i < |keys| ==> |keys[i]| == |fields|
  }

  /** `p` arranges the rows in a stable order: a permutation of the positions, ordered by key and,
      among equal keys, by input position. */
  ghost predicate StableOrder(keys: seq<seq<SortKey>>, fields: seq<Field>, p: seq<nat>)
    requires Keyed(keys, fields)
  {
    && |p| == |keys| && Distinct(p) && (forall k :: 0 <= k < |p| ==> p[k] < |keys|)
    && (forall k, m :: 0 <= k < m < |p| ==> Before(keys, fields, p[k], p[m]))
  }

  lemma BeforeIsStrictOrder(keys: seq<seq<SortKey>>, fields: seq<Field>, i: nat, j: nat, k: nat)
    requires Keyed(keys, fields) && i < |keys| && j < |keys| && k < |keys|
    ensures !(Before(keys, fields, i, j) && Before(keys, fields, j, i))
    ensures i != j ==> Before(keys, fields, i, j) || Before(keys, fields, j, i)
    ensures Before(keys, fields, i, j) && Before(keys, fields, j, k) ==> Before(keys, fields, i, k)
  {
    CompareIsTotalPreorder(keys[i], keys[j], keys[k], fields);
    CompareIsTotalPreorder(keys[j], keys[k], keys[i], fields);
    CompareIsTotalPreorder(keys[k], keys[i], keys[j], fields);
    CompareIsTotalPreorder(keys[j], keys[i], keys[k], fields);
    CompareIsTotalPreorder(keys[i], keys[k], keys[j], fields);
  }

  /** A duplicate-free list of all positions mentions each of them. */
  lemma {:induction false} CoversAll(p: seq<nat>, n: nat, x: nat)
    requires Distinct(p) && |p| == n && (forall k :: 0 <= k < |p| ==> p[k] < n) && x < n
    ensures x in p
  {
    if x !in p {
      RangeSize(n);
      ElementsSize(p);
      assert x in Below(n);
      assert Elements(p) <= Below(n) - {x};
      SubsetSize(Elements(p), Below(n) - {x});
    }
  }

  function Below(n: nat): (s: set<nat>)
    ensures forall i: nat :: i in s <==> i < n
  {
    if n == 0 then {} else Below(n - 1) + {n - 1}
  }

  lemma {:induction false} RangeSize(n: nat)
    ensures |Below(n)| == n
  {
    if n > 0 { RangeSize(n - 1); }
  }

  lemma {:induction false} ElementsSize(p: seq<nat>)
    requires Distinct(p)
    ensures |Elements(p)| == |p|
  {
    if p != [] {
      ElementsSize(p[1..]);
      assert p == [p[0]] + p[1..];
      assert Elements(p) == {p[0]} + Elements(p[1..]);
      assert p[0] !in p[1..];
    }
  }

  lemma {:induction false} SubsetSize(a: set<nat>, b: set<nat>)
    requires a <= b
    ensures |a| <= |b|
    decreases |a|
  {
    if a != {} {
      var x :| x in a;
      SubsetSize(a - {x}, b - {x});
    }
  }

  /** There is only one stable order, so a stable sort has no choice. */
  lemma {:induction false} StableOrderUnique(keys: seq<seq<SortKey>>, fields: seq<Field>, p: seq<nat>, q: seq<nat>, k: nat)
    requires Keyed(keys, fields) && StableOrder(keys, fields, p) && StableOrder(keys, fields, q)
    requires k <= |keys|
    ensures p[..k] == q[..k]
  {
    if k > 0 {
      StableOrderUnique(keys, fields, p, q, k - 1);
      var a, b := p[k - 1], q[k - 1];
      if a != b {
        LaterInOther(keys, fields, p, q, k - 1);
        LaterInOther(keys, fields, q, p, k - 1);
        BeforeIsStrictOrder(keys, fields, a, b, b);
      }
      assert p[..k] == p[..k - 1] + [a] && q[..k] == q[..k - 1] + [b];
    }
  }

  lemma LaterInOther(keys: seq<seq<SortKey>>, fields: seq<Field>, p: seq<nat>, q: seq<nat>, k: nat)
    requires Keyed(keys, fields) && StableOrder(keys, fields, p) && StableOrder(keys, fields, q)
    requires k < |keys| && p[..k] == q[..k] && p[k] != q[k]
    ensures Before(keys, fields, p[k], q[k])
  {
    CoversAll(p, |keys|, q[k]);
    var m :| 0 <= m < |p| && p[m] == q[k];
    assert forall i :: 0 <= i < k ==> p[..k][i] == q[..k][i];
  }

  /** Insertion into a stable order of earlier rows; `n` is the new row's position. */
  function Place(keys: seq<seq<SortKey>>, fields: seq<Field>, p: seq<nat>, n: nat): (r: seq<nat>)
    requires Keyed(keys, fields) && n < |keys| && forall k :: 0 <= k < |p| ==> p[k] < n
    ensures |r| == |p| + 1 && forall k :: 0 <= k < |r| ==> r[k] < |keys|
  {
    if p == [] then [n]
    else if Compare(keys[n], keys[p[0]], fields) < 0 then [n] + p
    else [p[0]] + Place(keys, fields, p[1..], n)
  }

  /** The library's stable `sort`, as insertion from the left. */
  function SortedPositions(keys: seq<seq<SortKey>>, fields: seq<Field>, n: nat): (p: seq<nat>)
    requires Keyed(keys, fields) && n <= |keys|
    ensures |p| == n && forall k :: 0 <= k < |p| ==> p[k] < n
  {
    if n == 0 then []
    else
      var p := SortedPositions(keys, fields, n - 1);
      PlaceMembers(keys, fields, p, n - 1);
      Place(keys, fields, p, n - 1)
  }

  lemma {:induction false} PlaceMembers(keys: seq<seq<SortKey>>, fields: seq<Field>, p: seq<nat>, n: nat)
    requires Keyed(keys, fields) && n < |keys| && forall k :: 0 <= k < |p| ==> p[k] < n
    ensures forall x :: x in Place(keys, fields, p, n) <==> x in p || x == n
    ensures forall k :: 0 <= k <= |p| ==> Place(keys, fields, p, n)[k] <= n
  {
    if p != [] && Compare(keys[n], keys[p[0]], fields) >= 0 {
      PlaceMembers(keys, fields, p[1..], n);
      assert p == [p[0]] + p[1..];
    }
  }

  ghost predicate OrderedPositions(keys: seq<seq<SortKey>>, fields: seq<Field>, p: seq<nat>)
    requires Keyed(keys, fields)
  {
    && (forall k :: 0 <= k < |p| ==> p[k] < |keys|)
    && (forall k, m :: 0 <= k < m < |p| ==> Before(keys, fields, p[k], p[m]))
  }

  lemma {:induction false} PlaceOrdered(keys: seq<seq<SortKey>>, fields: seq<Field>, p: seq<nat>, n: nat)
    requires Keyed(keys, fields) && n < |keys| && (forall k :: 0 <= k < |p| ==> p[k] < n) && OrderedPositions(keys, fields, p)
    ensures OrderedPositions(keys, fields, Place(keys, fields, p, n))
  {
    if p == [] {
    } else {
      var r := Place(keys, fields, p, n);
      BeforeIsStrictOrder(keys, fields, n, p[0], p[0]);
      CompareIsTotalPreorder(keys[n], keys[p[0]], keys[n], fields);
      CompareIsTotalPreorder(keys[p[0]], keys[n], keys[n], fields);
      if Compare(keys[n], keys[p[0]], fields) < 0 {
        forall m | 0 < m < |r| ensures Before(keys, fields, n, r[m]) {
          if m > 1 { BeforeIsStrictOrder(keys, fields, n, p[0], r[m]); }
        }
      } else {
        PlaceOrdered(keys, fields, p[1..], n);
        PlaceMembers(keys, fields, p[1..], n);
        forall m | 0 < m < |r| ensures Before(keys, fields, p[0], r[m]) {
          assert r[m] in Place(keys, fields, p[1..], n);
          if r[m] != n {
            var j :| 0 <= j < |p[1..]| && p[1..][j] == r[m];
            assert p[j + 1] == r[m];
          }
        }
      }
    }
  }

  /** The sorted positions are the stable order of the input. */
  lemma {:induction false} SortedIsStable(keys: seq<seq<SortKey>>, fields: seq<Field>, n: nat)
    requires Keyed(keys, fields) && n <= |keys|
    ensures OrderedPositions(keys, fields, SortedPositions(keys, fields, n))
    ensures n == |keys| ==> StableOrder(keys, fields, SortedPositions(keys, fields, n))
  {
    if n > 0 {
      SortedIsStable(keys, fields, n - 1);
      PlaceOrdered(keys, fields, SortedPositions(keys, fields, n - 1), n - 1);
    }
    var p := SortedPositions(keys, fields, n);
    forall k, m | 0 <= k < m < |p| ensures p[k] != p[m] {
      BeforeIsStrictOrder(keys, fields, p[k], p[m], p[k]);
    }
  }

  function Pick(rows: seq<Row>, p: seq<nat>): (r: seq<Row>)
    requires forall k :: 0 <= k < |p| ==> p[k] < |rows|
    ensures |r| == |p| && forall k :: 0 <= k < |p| ==> r[k] == rows[p[k]]
  {
    if p == [] then [] else [rows[p[0]]] + Pick(rows, p[1..])
  }

  // ----- what the order means for cells

  /** Row `row` holds `c` for the field; a missing column is absent. */
  predicate Holds(row: Row, field: Field, c: Cell) {
    if field.name in row then row[field.name] == c else c.Absent?
  }

  /** A smaller type, or within a type the smaller number, the smaller rank, or false against true. */
  predicate IsLower(a: Cell, b: Cell) {
    match b
    case Absent => false
    case Finite(n) => a.Absent? || (a.Finite? && a.number < n)
    case Text(n) => a.Absent? || a.Finite? || (a.Text? && a.order < n)
    case Flag(on) => a.Absent? || a.Finite? || a.Text? || (a.Flag? && !a.on && on)
    case List(n) => a.Absent? || a.Finite? || a.Text? || a.Flag? || (a.List? && a.order < n)
    case Record(n) => a.Absent? || a.Finite? || a.Text? || a.Flag? || a.List? || (a.Record? && a.order < n)
    case Unsupported => false
  }

  ghost predicate Agree(a: Row, b: Row, field: Field) {
    exists c :: Holds(a, field, c) && Holds(b, field, c)
  }

  /** The rows hold the same cells for the fields before `k`. */
  ghost predicate AgreeBefore(a: Row, b: Row, fields: seq<Field>, k: nat)
    requires k <= |fields|
  {
    forall i :: 0 <= i < k ==> Agree(a, b, fields[i])
  }

  /** Where the rows differ first, `a` has the lower cell, or the higher one if that field descends. */
  ghost predicate InOrder(a: Row, b: Row, fields: seq<Field>) {
    forall k, c, d | 0 <= k < |fields| && AgreeBefore(a, b, fields, k) && Holds(a, fields[k], c) && Holds(b, fields[k], d) && c != d
      :: if fields[k].descending then IsLower(d, c) else IsLower(c, d)
  }

  predicate Supported(row: Row, field: Field) {
    !Holds(row, field, Unsupported)
  }

  lemma OrderIsLower(a: Cell, b: Cell)
    requires SortValue(a).Some? && SortValue(b).Some?
    ensures Order(SortValue(a).value, SortValue(b).value) < 0 <==> IsLower(a, b)
    ensures Order(SortValue(a).value, SortValue(b).value) == 0 <==> a == b
    ensures Order(SortValue(a).value, SortValue(b).value) > 0 <==> IsLower(b, a)
  {
  }

  lemma CellIsHeld(row: Row, field: Field, c: Cell)
    ensures Holds(row, field, c) <==> c == CellOf(row, field.name)
  {
  }

  lemma AgreeTail(a: Row, b: Row, fields: seq<Field>, k: nat)
    requires k < |fields|
    ensures AgreeBefore(a, b, fields, k + 1) <==>
            CellOf(a, fields[0].name) == CellOf(b, fields[0].name) && AgreeBefore(a, b, fields[1..], k)
  {
    AgreeIff(a, b, fields[0]);
    hide Agree;
    assert forall i :: 0 < i < |fields| ==> fields[i] == fields[1..][i - 1];
    if AgreeBefore(a, b, fields, k + 1) {
      forall i | 0 <= i < k ensures Agree(a, b, fields[1..][i]) { assert fields[1..][i] == fields[i + 1]; }
    }
  }

  lemma AgreeIff(a: Row, b: Row, field: Field)
    ensures Agree(a, b, field) <==> CellOf(a, field.name) == CellOf(b, field.name)
  {
    CellIsHeld(a, field, CellOf(a, field.name));
    CellIsHeld(b, field, CellOf(b, field.name));
    if c :| Holds(a, field, c) && Holds(b, field, c) {
      CellIsHeld(a, field, c);
      CellIsHeld(b, field, c);
    }
  }

  /** The comparator says about two rows' keys what their cells say. */
  lemma {:induction false} CompareIsInOrder(a: Row, b: Row, fields: seq<Field>)
    requires KeysOf(a, fields).Ok? && KeysOf(b, fields).Ok?
    requires |KeysOf(a, fields).value| == |KeysOf(b, fields).value| == |fields|
    ensures Compare(KeysOf(a, fields).value, KeysOf(b, fields).value, fields) <= 0 ==> InOrder(a, b, fields)
    ensures Compare(KeysOf(a, fields).value, KeysOf(b, fields).value, fields) == 0 <==> AgreeBefore(a, b, fields, |fields|)
    decreases |fields|
  {
    if fields != [] {
      var c, d := CellOf(a, fields[0].name), CellOf(b, fields[0].name);
      KeysLength(a, fields[1..]);
      KeysLength(b, fields[1..]);
      CompareIsInOrder(a, b, fields[1..]);
      OrderIsLower(c, d);
      AgreeTail(a, b, fields, |fields| - 1);
      if Compare(KeysOf(a, fields).value, KeysOf(b, fields).value, fields) <= 0 {
        hide Order, IsLower, SortValue, AgreeBefore, InOrder, CellOf;
        HeadInOrder(a, b, fields);
      }
    }
  }

  lemma HeadInOrder(a: Row, b: Row, fields: seq<Field>)
    requires fields != []
    requires var c, d := CellOf(a, fields[0].name), CellOf(b, fields[0].name);
             if c == d then InOrder(a, b, fields[1..]) else if fields[0].descending then IsLower(d, c) else IsLower(c, d)
    ensures InOrder(a, b, fields)
  {
    hide IsLower, AgreeBefore, CellOf, Holds;
    forall k, c, d | 0 <= k < |fields| && AgreeBefore(a, b, fields, k) && Holds(a, fields[k], c) && Holds(b, fields[k], d) && c != d
      ensures if fields[k].descending then IsLower(d, c) else IsLower(c, d) {
      CellIsHeld(a, fields[k], c);
      CellIsHeld(b, fields[k], d);
      if k > 0 {
        AgreeTail(a, b, fields, k - 1);
        assert fields[1..][k - 1] == fields[k];
      }
    }
  }

  /** A row has keys exactly when all its fields are supported; otherwise the first that is not is named. */
  lemma {:induction false} KeysIff(row: Row, fields: seq<Field>)
    ensures KeysOf(row, fields).Ok? <==> forall k :: 0 <= k < |fields| ==> Supported(row, fields[k])
    ensures KeysOf(row, fields).Err? ==> FirstUnsupported(row, fields, KeysOf(row, fields).error)
  {
    if fields != [] {
      KeysIff(row, fields[1..]);
      assert forall k :: 0 < k < |fields| ==> fields[k] == fields[1..][k - 1];
      if KeysOf(row, fields).Err? {
        if Supported(row, fields[0]) {
          var k :| 0 <= k < |fields[1..]| && fields[1..][k].name == KeysOf(row, fields).error &&
                   !Supported(row, fields[1..][k]) && forall m :: 0 <= m < k ==> Supported(row, fields[1..][m]);
          assert fields[k + 1].name == KeysOf(row, fields).error;
        } else {
          assert fields[0].name == KeysOf(row, fields).error;
        }
      }
    }
  }

  ghost predicate FirstUnsupported(row: Row, fields: seq<Field>, name: string) {
    exists k :: 0 <= k < |fields| && fields[k].name == name && !Supported(row, fields[k]) &&
                forall m :: 0 <= m < k ==> Supported(row, fields[m])
  }

  lemma RowsInOrder(rows: seq<Row>, keys: seq<seq<SortKey>>, fields: seq<Field>, p: seq<nat>, r: seq<Row>)
    requires |keys| == |rows| && forall i :: 0 <= i < |rows| ==> KeysOf(rows[i], fields) == Ok(keys[i])
    requires Keyed(keys, fields) && StableOrder(keys, fields, p) && r == Pick(rows, p)
    ensures forall i, j :: 0 <= i < j < |r| ==> InOrder(r[i], r[j], fields) && (AgreeBefore(r[i], r[j], fields, |fields|) ==> p[i] < p[j])
  {
    hide KeysOf, InOrder, AgreeBefore, Compare;
    forall i, j | 0 <= i < j < |r|
      ensures InOrder(r[i], r[j], fields) && (AgreeBefore(r[i], r[j], fields, |fields|) ==> p[i] < p[j]) {
      assert Before(keys, fields, p[i], p[j]);
      assert |keys[p[i]]| == |keys[p[j]]| == |fields|;
      CompareIsInOrder(r[i], r[j], fields);
    }
  }

  /** `sortDataflowRows`: every row once, in ascending order of their cells field by field, descending
      where the field says so, and rows with the same cells in input order; or the first unsortable
      row with its first unsupported field, even when it is the only row. */
  method SortRows(rows: seq<Row>, fields: seq<Field>)
    returns (r: Result<seq<Row>, SortError>, ghost keys: seq<seq<SortKey>>, ghost p: seq<nat>)
    ensures r.Ok? <==> forall i, k :: 0 <= i < |rows| && 0 <= k < |fields| ==> Supported(rows[i], fields[k])
    ensures r.Ok? ==> |p| == |rows| == |r.value| && Distinct(p) && forall i :: 0 <= i < |p| ==> p[i] < |rows| && r.value[i] == rows[p[i]]
    ensures r.Ok? ==> forall i, j :: 0 <= i < j < |rows| ==> InOrder(r.value[i], r.value[j], fields)
    ensures r.Ok? ==> forall i, j :: 0 <= i < j < |rows| && AgreeBefore(r.value[i], r.value[j], fields, |fields|) ==> p[i] < p[j]
    ensures r.Ok? ==> |keys| == |rows| && forall i :: 0 <= i < |rows| ==> KeysOf(rows[i], fields) == Ok(keys[i])
    ensures r.Ok? ==> Keyed(keys, fields) && StableOrder(keys, fields, p) && forall q :: StableOrder(keys, fields, q) ==> q == p
    ensures r.Err? ==> r.error.row < |rows| && FirstUnsupported(rows[r.error.row], fields, r.error.field)
    ensures r.Err? ==> forall i, k :: 0 <= i < r.error.row && 0 <= k < |fields| ==> Supported(rows[i], fields[k])
  {
    hide Supported, InOrder, AgreeBefore, KeysOf;
    var computed: seq<seq<SortKey>> := [];
    keys, p := [], [];
    var i := 0;
    while i < |rows|
      invariant i <= |rows| && |computed| == i
      invariant forall j :: 0 <= j < i ==> KeysOf(rows[j], fields) == Ok(computed[j]) && |computed[j]| == |fields|
      invariant forall j, k :: 0 <= j < i && 0 <= k < |fields| ==> Supported(rows[j], fields[k])
    {
      var row := KeysOf(rows[i], fields);
      KeysIff(rows[i], fields);
      if row.Err? { return Err(Unsortable(i, row.error)), keys, p; }
      KeysLength(rows[i], fields);
      computed, i := computed + [row.value], i + 1;
    }
    var positions := SortedPositions(computed, fields, |rows|);
    SortedIsStable(computed, fields, |rows|);
    keys, p := computed, positions;
    forall q | StableOrder(keys, fields, q) ensures q == p {
      StableOrderUnique(keys, fields, p, q, |rows|);
      assert p[..|rows|] == p && q[..|rows|] == q;
    }
    RowsInOrder(rows, keys, fields, p, Pick(rows, positions));
    r := Ok(Pick(rows, positions));
  }

  lemma {:induction false} KeysLength(row: Row, fields: seq<Field>)
    requires KeysOf(row, fields).Ok?
    ensures |KeysOf(row, fields).value| == |fields|
  {
    if fields != [] { KeysLength(row, fields[1..]); }
  }

  predicate Reversed(fields: seq<Field>, other: seq<Field>) {
    |fields| == |other| && forall i :: 0 <= i < |fields| ==> fields[i].descending != other[i].descending
  }

  lemma {:induction false} CompareReversed(a: seq<SortKey>, b: seq<SortKey>, fields: seq<Field>, other: seq<Field>)
    requires |a| == |b| == |fields| && Reversed(fields, other)
    ensures Compare(a, b, other) == -Compare(a, b, fields)
  {
    if fields != [] { CompareReversed(a[1..], b[1..], fields[1..], other[1..]); }
  }

  /** Reversing every direction swaps two rows with different keys in the arrangement, and leaves two
      rows with equal keys in input order both times. */
  lemma DirectionsKeepTies(keys: seq<seq<SortKey>>, fields: seq<Field>, other: seq<Field>,
                           p: seq<nat>, q: seq<nat>, i: nat, j: nat, k: nat, m: nat)
    requires Keyed(keys, fields) && Reversed(fields, other) && StableOrder(keys, fields, p) && StableOrder(keys, other, q)
    requires i < |p| && j < |p| && k < |q| && m < |q| && q[k] == p[i] && q[m] == p[j] && p[i] != p[j]
    ensures if keys[p[i]] == keys[p[j]] then (i < j <==> p[i] < p[j]) && (k < m <==> p[i] < p[j])
            else i < j <==> m < k
  {
    var x, y := p[i], p[j];
    CompareIsTotalPreorder(keys[x], keys[y], keys[x], fields);
    CompareReversed(keys[x], keys[y], fields, other);
    BeforeIsStrictOrder(keys, fields, x, y, x);
    BeforeIsStrictOrder(keys, other, x, y, x);
    CompareIsTotalPreorder(keys[x], keys[y], keys[x], other);
    hide Compare;
  }
}
