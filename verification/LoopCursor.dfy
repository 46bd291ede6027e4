/** Bounded loop counters: restore, validate, advance and merge of an execution branch's cursor. */
module LoopCursor {
  import opened Workflow
  import opened Sorting

  datatype Traversal = Traversal(edge: Id, count: int)

  /** The traversals of a cursor with `schemaVersion` 1. */
  type Cursor = seq<Traversal>

  /** A persisted value before validation. */
  datatype Raw = NotACursor | Stored(schemaVersion: int, traversals: seq<Traversal>)

  datatype Error =
    | InvalidCursor
    | InvalidPolicy
    | CursorMismatch(edge: Id)
    | LimitReached(edge: Id)
    | MissingSuccessor

  function TraversedEdge(): Traversal -> int {
    (t: Traversal) => t.edge
  }

  predicate EntryOk(t: Traversal) {
    !IsBlank(t.edge) && 1 <= t.count <= 1000
  }

  predicate ValidTraversals(ts: seq<Traversal>) {
    (forall i :: 0 <= i < |ts| ==> EntryOk(ts[i])) && DistinctKeys(ts, TraversedEdge())
  }

  predicate ValidRaw(value: Raw) {
    value.Stored? && value.schemaVersion == 1 && ValidTraversals(value.traversals)
  }

  /** The normal form every exported function returns: valid entries in edge order. */
  ghost predicate Canonical(c: Cursor) {
    ValidTraversals(c) && SortedBy(c, TraversedEdge())
  }

  /** How often `edge` has been traversed; edges without an entry have count 0. */
  function CountOf(ts: seq<Traversal>, edge: Id): int {
    if ts == [] then 0 else if ts[0].edge == edge then ts[0].count else CountOf(ts[1..], edge)
  }

  lemma {:induction false} CountOfEntry(ts: seq<Traversal>, i: nat)
    requires i < |ts| && DistinctKeys(ts, TraversedEdge())
    ensures CountOf(ts, ts[i].edge) == ts[i].count
  {
    if i > 0 {
      assert TraversedEdge()(ts[0]) != TraversedEdge()(ts[i]);
      CountOfEntry(ts[1..], i - 1);
    }
  }

  lemma {:induction false} CountOfAbsent(ts: seq<Traversal>, edge: Id)
    requires forall i :: 0 <= i < |ts| ==> ts[i].edge != edge
    ensures CountOf(ts, edge) == 0
  {
    if ts != [] {
      CountOfAbsent(ts[1..], edge);
    }
  }

  lemma {:induction false} CountOfPresent(ts: seq<Traversal>, edge: Id) returns (i: nat)
    requires CountOf(ts, edge) != 0
    ensures i < |ts| && ts[i] == Traversal(edge, CountOf(ts, edge))
  {
    if ts[0].edge == edge {
      i := 0;
    } else {
      i := CountOfPresent(ts[1..], edge);
      i := i + 1;
    }
  }

  /** Counts of valid traversals are between 0 and 1000. */
  lemma CountRange(ts: seq<Traversal>, edge: Id)
    requires ValidTraversals(ts)
    ensures 0 <= CountOf(ts, edge) <= 1000
  {
    if CountOf(ts, edge) != 0 {
      var i := CountOfPresent(ts, edge);
      assert EntryOk(ts[i]);
    }
  }

  /** Counts do not depend on the order of the entries. */
  lemma CountOfPermutation(s: seq<Traversal>, t: seq<Traversal>, edge: Id)
    requires multiset(s) == multiset(t) && ValidTraversals(s)
    ensures CountOf(s, edge) == CountOf(t, edge)
  {
    SameMultisetSameMembers(s, t);
    DistinctKeysPermutation(s, t, TraversedEdge());
    if i :| 0 <= i < |s| && s[i].edge == edge {
      assert s[i] in t;
      var k :| 0 <= k < |t| && t[k] == s[i];
      CountOfEntry(s, i);
      CountOfEntry(t, k);
    } else {
      forall k | 0 <= k < |t|
        ensures t[k].edge != edge
      {
        assert t[k] in s;
      }
      CountOfAbsent(s, edge);
      CountOfAbsent(t, edge);
    }
  }

  /** A canonical cursor is determined by its counts. */
  lemma {:induction false} CanonicalUnique(c: Cursor, d: Cursor)
    requires Canonical(c) && Canonical(d)
    requires forall e :: CountOf(c, e) == CountOf(d, e)
    ensures c == d
  {
    CountsGiveEntries(c, d);
    CountsGiveEntries(d, c);
    SameEntries(c, d);
  }

  lemma CountsGiveEntries(c: Cursor, d: Cursor)
    requires ValidTraversals(c) && forall e :: CountOf(c, e) == CountOf(d, e)
    ensures forall t :: t in c ==> t in d
  {
    forall t | t in c
      ensures t in d
    {
      var i :| 0 <= i < |c| && c[i] == t;
      assert EntryOk(c[i]);
      CountOfEntry(c, i);
      var k := CountOfPresent(d, t.edge);
    }
  }

  /** Two sorted lists without repetition that hold the same entries are equal. */
  lemma {:induction false} SameEntries(c: Cursor, d: Cursor)
    requires SortedBy(c, TraversedEdge()) && SortedBy(d, TraversedEdge())
    requires DistinctKeys(c, TraversedEdge()) && DistinctKeys(d, TraversedEdge())
    requires forall t :: t in c <==> t in d
    ensures c == d
  {
    assert d != [] ==> d[0] in d;
    if c != [] {
      assert c[0] in c && c[0] in d;
      assert d[0] in c;
      var i :| 0 <= i < |d| && d[i] == c[0];
      var j :| 0 <= j < |c| && c[j] == d[0];
      assert TraversedEdge()(d[0]) <= TraversedEdge()(d[i]);
      assert TraversedEdge()(c[0]) <= TraversedEdge()(c[j]);
      assert i == 0;
      TailEntries(c, d);
      SameEntries(c[1..], d[1..]);
      assert c == [c[0]] + c[1..] && d == [d[0]] + d[1..];
    }
  }

  lemma TailEntries(c: Cursor, d: Cursor)
    requires c != [] && d != [] && c[0] == d[0]
    requires DistinctKeys(c, TraversedEdge()) && DistinctKeys(d, TraversedEdge())
    requires forall t :: t in c <==> t in d
    ensures forall t :: t in c[1..] <==> t in d[1..]
  {
    assert c == [c[0]] + c[1..] && d == [d[0]] + d[1..];
    assert c[0] !in c[1..] by {
      assert forall i :: 0 < i < |c| ==> TraversedEdge()(c[0]) != TraversedEdge()(c[i]);
    }
    assert d[0] !in d[1..] by {
      assert forall i :: 0 < i < |d| ==> TraversedEdge()(d[0]) != TraversedEdge()(d[i]);
    }
    forall t
      ensures t in c[1..] <==> t in d[1..]
    {
      assert t in c <==> t == c[0] || t in c[1..];
      assert t in d <==> t == d[0] || t in d[1..];
    }
  }

  // ----- restore

  /** The canonical form of a persisted value, when it has one. */
  ghost predicate Restored(value: Raw, r: Result<Cursor, Error>) {
    && (r.Ok? <==> ValidRaw(value))
    && (r.Err? ==> r.error == InvalidCursor)
    && (r.Ok? ==> Canonical(r.value) && multiset(r.value) == multiset(value.traversals)
                  && forall e :: CountOf(r.value, e) == CountOf(value.traversals, e))
  }

  method Restore(value: Raw) returns (r: Result<Cursor, Error>)
    ensures Restored(value, r)
    ensures r.Ok? <==>
            && value.Stored? && value.schemaVersion == 1
            && (forall i :: 0 <= i < |value.traversals| ==> value.traversals[i].edge > 0 && 1 <= value.traversals[i].count <= 1000)
            && (forall i, j :: 0 <= i < j < |value.traversals| ==> value.traversals[i].edge != value.traversals[j].edge)
  {
    if value.NotACursor? || value.schemaVersion != 1 {
      return Err(InvalidCursor);
    }
    var ts := value.traversals;
    var seen: set<Id> := {};
    for i := 0 to |ts|
      invariant forall x :: x in seen <==> exists k :: 0 <= k < i && ts[k].edge == x
      invariant forall k :: 0 <= k < i ==> EntryOk(ts[k])
      invariant forall j, k :: 0 <= j < k < i ==> TraversedEdge()(ts[j]) != TraversedEdge()(ts[k])
    {
      if !EntryOk(ts[i]) || ts[i].edge in seen {
        assert !ValidTraversals(ts) by {
          if EntryOk(ts[i]) {
            var k :| 0 <= k < i && ts[k].edge == ts[i].edge;
            assert TraversedEdge()(ts[k]) == TraversedEdge()(ts[i]);
          }
        }
        return Err(InvalidCursor);
      }
      seen := seen + {ts[i].edge};
    }
    r := Ok(Sort(ts, TraversedEdge()));
    SortedIsCanonical(ts);
  }

  lemma SortedIsCanonical(ts: seq<Traversal>)
    requires ValidTraversals(ts)
    ensures Canonical(Sort(ts, TraversedEdge())) && multiset(Sort(ts, TraversedEdge())) == multiset(ts)
    ensures forall e :: CountOf(Sort(ts, TraversedEdge()), e) == CountOf(ts, e)
  {
    var sorted := Sort(ts, TraversedEdge());
    SortCorrect(ts, TraversedEdge());
    SameMultisetSameMembers(ts, sorted);
    DistinctKeysPermutation(ts, sorted, TraversedEdge());
    forall i | 0 <= i < |sorted|
      ensures EntryOk(sorted[i])
    {
      assert sorted[i] in ts;
    }
    forall e
      ensures CountOf(sorted, e) == CountOf(ts, e)
    {
      CountOfPermutation(ts, sorted, e);
    }
  }

  /** Restoring is idempotent: a canonical cursor is its own restoration. */
  lemma RestoreIdempotent(c: Cursor, r: Result<Cursor, Error>)
    requires Canonical(c) && Restored(Stored(1, c), r)
    ensures r == Ok(c)
  {
    CanonicalUnique(r.value, c);
  }

  /** Two persisted values with the same counts restore to the same cursor, whatever their order. */
  lemma RestoreForgetsOrder(v: Raw, w: Raw, r: Result<Cursor, Error>, q: Result<Cursor, Error>)
    requires ValidRaw(v) && ValidRaw(w) && Restored(v, r) && Restored(w, q)
    requires forall e :: CountOf(v.traversals, e) == CountOf(w.traversals, e)
    ensures r == q
  {
    CanonicalUnique(r.value, q.value);
  }

  // ----- validate

  predicate PolicyOk(e: Edge) {
    IsLoop(e) && !IsBlank(e.id) && 1 <= e.loop.value <= 1000
  }

  ghost predicate PoliciesOk(edges: seq<Edge>) {
    && (forall i :: 0 <= i < |edges| && IsLoop(edges[i]) ==> PolicyOk(edges[i]))
    && (forall i, j :: 0 <= i < j < |edges| && IsLoop(edges[i]) && IsLoop(edges[j]) ==> edges[i].id != edges[j].id)
  }

  /** The entry counts a declared loop edge, within its limit. */
  ghost predicate Limited(t: Traversal, edges: seq<Edge>) {
    exists k :: 0 <= k < |edges| && IsLoop(edges[k]) && edges[k].id == t.edge && t.count <= edges[k].loop.value
  }

  ghost predicate WithinLimits(c: Cursor, edges: seq<Edge>) {
    forall i :: 0 <= i < |c| ==> Limited(c[i], edges)
  }

  method Validate(value: Raw, edges: seq<Edge>) returns (r: Result<Cursor, Error>)
    ensures r.Ok? <==> ValidRaw(value) && PoliciesOk(edges) && WithinLimits(value.traversals, edges)
    ensures r.Ok? ==> Restored(value, r) && WithinLimits(r.value, edges)
  {
    var restored := Restore(value);
    if restored.Err? {
      return restored;
    }
    var cursor := restored.value;
    SameMultisetSameMembers(cursor, value.traversals);
    var policies: map<Id, int> := map[];
    for n := 0 to |edges|
      invariant PoliciesOk(edges[..n])
      invariant PolicyMap(edges[..n], policies)
    {
      assert edges[..n + 1] == edges[..n] + [edges[n]];
      if IsLoop(edges[n]) {
        if !PolicyOk(edges[n]) || edges[n].id in policies {
          if edges[n].id in policies {
            var k :| 0 <= k < |edges[..n]| && IsLoop(edges[..n][k]) && edges[..n][k].id == edges[n].id;
            assert edges[k].id == edges[n].id;
          }
          assert !PoliciesOk(edges);
          return Err(InvalidPolicy);
        }
        policies := policies[edges[n].id := edges[n].loop.value];
      }
    }
    assert edges[..|edges|] == edges;
    LimitsByMap(cursor, edges, policies);
    LimitsByMap(value.traversals, edges, policies);
    for i := 0 to |cursor|
      invariant forall k :: 0 <= k < i ==> AllowedBy(cursor[k], policies)
    {
      if !AllowedBy(cursor[i], policies) {
        assert cursor[i] in cursor;
        return Err(CursorMismatch(cursor[i].edge));
      }
    }
    forall t | t in value.traversals
      ensures AllowedBy(t, policies)
    {
      assert t in cursor;
    }
    r := restored;
  }

  predicate AllowedBy(t: Traversal, policies: map<Id, int>) {
    t.edge in policies && t.count <= policies[t.edge]
  }

  /** `policies` holds the limit of every declared loop edge and nothing else. */
  ghost predicate PolicyMap(edges: seq<Edge>, policies: map<Id, int>) {
    && (forall x :: x in policies <==> exists k :: 0 <= k < |edges| && IsLoop(edges[k]) && edges[k].id == x)
    && (forall k :: 0 <= k < |edges| && IsLoop(edges[k]) ==> policies[edges[k].id] == edges[k].loop.value)
  }

  lemma LimitsByMap(ts: seq<Traversal>, edges: seq<Edge>, policies: map<Id, int>)
    requires PolicyMap(edges, policies)
    ensures WithinLimits(ts, edges) <==> forall t :: t in ts ==> AllowedBy(t, policies)
  {
    if WithinLimits(ts, edges) {
      forall t | t in ts
        ensures AllowedBy(t, policies)
      {
        var i :| 0 <= i < |ts| && ts[i] == t;
        assert Limited(ts[i], edges);
      }
    }
    if forall t :: t in ts ==> AllowedBy(t, policies) {
      forall i | 0 <= i < |ts|
        ensures Limited(ts[i], edges)
      {
        assert ts[i] in ts;
        var k :| 0 <= k < |edges| && IsLoop(edges[k]) && edges[k].id == ts[i].edge;
      }
    }
  }

  // ----- advance

  /** Following `edge`: a plain edge copies the cursor, a loop edge counts one more traversal. */
  ghost predicate Advanced(c: Cursor, edge: Edge, r: Cursor) {
    && Canonical(r)
    && forall e :: CountOf(r, e) == CountOf(c, e) + (if IsLoop(edge) && e == edge.id then 1 else 0)
  }

  method Advance(value: Raw, edge: Edge) returns (r: Result<Cursor, Error>)
    ensures r.Ok? <==>
            ValidRaw(value) &&
            (IsLoop(edge) ==> PolicyOk(edge) && CountOf(value.traversals, edge.id) < edge.loop.value)
    ensures r.Ok? ==> Advanced(value.traversals, edge, r.value)
    ensures r.Ok? && IsLoop(edge) ==> CountOf(r.value, edge.id) <= edge.loop.value
    ensures r == Err(LimitReached(edge.id)) <==>
            ValidRaw(value) && IsLoop(edge) && PolicyOk(edge) && CountOf(value.traversals, edge.id) >= edge.loop.value
  {
    var restored := Restore(value);
    if restored.Err? || !IsLoop(edge) {
      return restored;
    }
    if !PolicyOk(edge) {
      return Err(InvalidPolicy);
    }
    var cursor := restored.value;
    var at := FindEntry(cursor, edge.id);
    var count := (if at < |cursor| then cursor[at].count else 0) + 1;
    if count > edge.loop.value {
      return Err(LimitReached(edge.id));
    }
    var next := if at < |cursor| then cursor[at := Traversal(edge.id, count)] else cursor + [Traversal(edge.id, count)];
    BumpedEntry(cursor, at, Traversal(edge.id, count));
    r := Restore(Stored(1, next));
  }

  /** `cursor.traversals.find(item => item.edgeId === edge)` */
  method FindEntry(ts: seq<Traversal>, edge: Id) returns (at: nat)
    requires ValidTraversals(ts)
    ensures at <= |ts|
    ensures at < |ts| ==> ts[at].edge == edge && ts[at].count == CountOf(ts, edge)
    ensures at == |ts| ==> CountOf(ts, edge) == 0 && forall k :: 0 <= k < |ts| ==> ts[k].edge != edge
  {
    at := 0;
    while at < |ts| && ts[at].edge != edge
      invariant at <= |ts| && forall k :: 0 <= k < at ==> ts[k].edge != edge
    {
      at := at + 1;
    }
    if at < |ts| {
      CountOfEntry(ts, at);
    } else {
      CountOfAbsent(ts, edge);
    }
  }

  lemma BumpedEntry(ts: seq<Traversal>, at: nat, entry: Traversal)
    requires ValidTraversals(ts) && at <= |ts| && EntryOk(entry)
    requires at < |ts| ==> ts[at].edge == entry.edge
    requires at == |ts| ==> forall k :: 0 <= k < |ts| ==> ts[k].edge != entry.edge
    ensures var next := if at < |ts| then ts[at := entry] else ts + [entry];
            ValidTraversals(next) &&
            forall e :: CountOf(next, e) == if e == entry.edge then entry.count else CountOf(ts, e)
  {
    var next := if at < |ts| then ts[at := entry] else ts + [entry];
    assert forall k :: 0 <= k < |ts| ==> next[k].edge == ts[k].edge;
    forall i, j | 0 <= i < j < |next|
      ensures TraversedEdge()(next[i]) != TraversedEdge()(next[j])
    {
      if j < |ts| {
        assert TraversedEdge()(ts[i]) != TraversedEdge()(ts[j]);
      }
    }
    forall e
      ensures CountOf(next, e) == if e == entry.edge then entry.count else CountOf(ts, e)
    {
      if i :| 0 <= i < |next| && next[i].edge == e {
        CountOfEntry(next, i);
        if e != entry.edge {
          CountOfEntry(ts, i);
        }
      } else {
        assert next[at] == entry;
        CountOfAbsent(next, e);
        CountOfAbsent(ts, e);
      }
    }
  }

  // ----- merge

  function Larger(a: int, b: int): int {
    if a < b then b else a
  }

  /** The largest count any of the values holds for `edge`. */
  function MaxCount(values: seq<Cursor>, edge: Id): int {
    if values == [] then 0 else Larger(CountOf(values[0], edge), MaxCount(values[1..], edge))
  }

  /** `r` is the canonical cursor that keeps, per edge, the maximum over all values. */
  ghost predicate IsMerge(values: seq<Cursor>, r: Cursor) {
    Canonical(r) && forall e :: CountOf(r, e) == MaxCount(values, e)
  }

  function Unwrap(values: seq<Raw>): (r: seq<Cursor>)
    requires forall i :: 0 <= i < |values| ==> values[i].Stored?
    ensures |r| == |values| && forall i :: 0 <= i < |r| ==> r[i] == values[i].traversals
  {
    seq(|values|, i requires 0 <= i < |values| => values[i].traversals)
  }

  /** A JavaScript `Map` from edge to count: entries in insertion order, one per edge. */
  method SetMax(entries: seq<Traversal>, t: Traversal) returns (r: seq<Traversal>)
    requires ValidTraversals(entries) && EntryOk(t)
    ensures ValidTraversals(r)
    ensures forall e :: CountOf(r, e) == if e == t.edge then Larger(CountOf(entries, e), t.count) else CountOf(entries, e)
  {
    var at := FindEntry(entries, t.edge);
    var count := Larger(if at < |entries| then entries[at].count else 0, t.count);
    r := if at < |entries| then entries[at := Traversal(t.edge, count)] else entries + [Traversal(t.edge, count)];
    assert at < |entries| ==> EntryOk(entries[at]);
    BumpedEntry(entries, at, Traversal(t.edge, count));
  }

  lemma {:induction false} MaxCountSnoc(values: seq<Cursor>, c: Cursor, edge: Id)
    ensures MaxCount(values + [c], edge) == Larger(MaxCount(values, edge), Larger(CountOf(c, edge), 0))
  {
    if values == [] {
      assert (values + [c])[1..] == [];
    } else {
      assert (values + [c])[1..] == values[1..] + [c];
      MaxCountSnoc(values[1..], c, edge);
    }
  }

  /** The inner loop: fold one cursor into the running maxima. */
  method FoldCursor(counts: seq<Traversal>, cursor: Cursor) returns (r: seq<Traversal>)
    requires ValidTraversals(counts) && ValidTraversals(cursor)
    ensures ValidTraversals(r)
    ensures forall e :: CountOf(r, e) == Larger(CountOf(counts, e), CountOf(cursor, e))
  {
    r := counts;
    forall e
      ensures 0 <= CountOf(counts, e)
    {
      CountRange(counts, e);
    }
    for i := 0 to |cursor|
      invariant ValidTraversals(r)
      invariant forall e :: CountOf(r, e) == Larger(CountOf(counts, e), CountOf(cursor[..i], e))
    {
      assert EntryOk(cursor[i]);
      assert cursor[..i + 1] == cursor[..i] + [cursor[i]];
      BumpedEntry(cursor[..i], i, cursor[i]);
      assert forall k :: 0 <= k < i ==> TraversedEdge()(cursor[k]) != TraversedEdge()(cursor[i]);
      CountOfAbsent(cursor[..i], cursor[i].edge);
      r := SetMax(r, cursor[i]);
    }
    assert cursor[..|cursor|] == cursor;
  }

  /** Sibling branches keep independent counts; a join preserves their maxima. */
  method Merge(values: seq<Raw>) returns (r: Result<Cursor, Error>)
    ensures r.Ok? <==> forall i :: 0 <= i < |values| ==> ValidRaw(values[i])
    ensures r.Ok? ==> IsMerge(Unwrap(values), r.value)
  {
    var counts: seq<Traversal> := [];
    ghost var merged: seq<Cursor> := [];
    for n := 0 to |values|
      invariant forall i :: 0 <= i < n ==> ValidRaw(values[i])
      invariant |merged| == n && forall i :: 0 <= i < n ==> merged[i] == values[i].traversals
      invariant ValidTraversals(counts)
      invariant forall e :: CountOf(counts, e) == MaxCount(merged, e)
    {
      var restored := Restore(values[n]);
      if restored.Err? {
        return restored;
      }
      forall e
        ensures MaxCount(merged + [values[n].traversals], e) == Larger(CountOf(counts, e), CountOf(restored.value, e))
      {
        MaxCountSnoc(merged, values[n].traversals, e);
        CountRange(restored.value, e);
        CountRange(counts, e);
      }
      counts := FoldCursor(counts, restored.value);
      merged := merged + [values[n].traversals];
    }
    r := Restore(Stored(1, counts));
    assert merged == Unwrap(values);
  }

  // ----- merge is the least upper bound

  ghost predicate Leq(c: Cursor, d: Cursor) {
    forall e :: CountOf(c, e) <= CountOf(d, e)
  }

  lemma {:induction false} MaxCountBounds(values: seq<Cursor>, edge: Id)
    ensures 0 <= MaxCount(values, edge)
    ensures forall i :: 0 <= i < |values| ==> CountOf(values[i], edge) <= MaxCount(values, edge)
    ensures MaxCount(values, edge) == 0 || exists i :: 0 <= i < |values| && CountOf(values[i], edge) == MaxCount(values, edge)
  {
    if values != [] {
      MaxCountBounds(values[1..], edge);
      assert forall i :: 0 < i < |values| ==> values[i] == values[1..][i - 1];
      if MaxCount(values[1..], edge) > 0 {
        var i :| 0 <= i < |values[1..]| && CountOf(values[1..][i], edge) == MaxCount(values[1..], edge);
        assert CountOf(values[i + 1], edge) == MaxCount(values[1..], edge);
      }
    }
  }

  /** The merge lies above every value and below every cursor that does. */
  lemma MergeIsLeastUpperBound(values: seq<Cursor>, m: Cursor)
    requires IsMerge(values, m)
    ensures forall i :: 0 <= i < |values| ==> Leq(values[i], m)
    ensures forall u :: Canonical(u) && (forall i :: 0 <= i < |values| ==> Leq(values[i], u)) ==> Leq(m, u)
  {
    forall e
      ensures forall i :: 0 <= i < |values| ==> CountOf(values[i], e) <= CountOf(m, e)
    {
      MaxCountBounds(values, e);
    }
    forall u | Canonical(u) && forall i :: 0 <= i < |values| ==> Leq(values[i], u)
      ensures Leq(m, u)
    {
      forall e
        ensures CountOf(m, e) <= CountOf(u, e)
      {
        MaxCountBounds(values, e);
        CountRange(u, e);
      }
    }
  }

  lemma {:induction false} MaxCountConcat(s: seq<Cursor>, t: seq<Cursor>, edge: Id)
    ensures MaxCount(s + t, edge) == Larger(MaxCount(s, edge), MaxCount(t, edge))
  {
    if s == [] {
      assert s + t == t;
      MaxCountBounds(t, edge);
    } else {
      assert (s + t)[1..] == s[1..] + t;
      MaxCountConcat(s[1..], t, edge);
    }
  }

  /** Merging is commutative and associative: regrouping and swapping lists of cursors does not
      change the result. */
  lemma MergeRegroups(s: seq<Cursor>, t: seq<Cursor>, m: Cursor, n: Cursor, k: Cursor, l: Cursor)
    requires IsMerge(s, m) && IsMerge(t, n) && IsMerge([m, n], k) && IsMerge(t + s, l)
    ensures k == l
  {
    forall e
      ensures CountOf(k, e) == CountOf(l, e)
    {
      MaxCountConcat(t, s, e);
      CountRange(m, e);
      CountRange(n, e);
      MaxCountConcat([m], [n], e);
      assert [m] + [n] == [m, n];
    }
    CanonicalUnique(k, l);
  }

  /** Merging copies of one cursor returns that cursor. */
  lemma {:induction false} MergeIdempotent(c: Cursor, values: seq<Cursor>, m: Cursor)
    requires Canonical(c) && values != [] && forall i :: 0 <= i < |values| ==> values[i] == c
    requires IsMerge(values, m)
    ensures m == c
  {
    forall e
      ensures CountOf(m, e) == CountOf(c, e)
    {
      MaxCountBounds(values, e);
      CountRange(c, e);
    }
    CanonicalUnique(m, c);
  }

  /** Merging cursors that respect the declared limits respects them too. */
  lemma MergeWithinLimits(values: seq<Cursor>, m: Cursor, edges: seq<Edge>)
    requires IsMerge(values, m)
    requires forall i :: 0 <= i < |values| ==> WithinLimits(values[i], edges)
    ensures WithinLimits(m, edges)
  {
    forall j | 0 <= j < |m|
      ensures Limited(m[j], edges)
    {
      assert EntryOk(m[j]);
      CountOfEntry(m, j);
      MaxCountBounds(values, m[j].edge);
      var i :| 0 <= i < |values| && CountOf(values[i], m[j].edge) == m[j].count;
      var p := CountOfPresent(values[i], m[j].edge);
      assert values[i][p] == m[j] && Limited(values[i][p], edges);
    }
  }
}
