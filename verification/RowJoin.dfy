/** The hash join of server/dataflow-join-rows.ts: equal to the nested loop in order, or an error;
    no output column ever overwrites another. */
module RowJoin {
  import opened Workflow
  import opened KeyValue
  import opened RowOperations

  datatype JoinError = KeyCountsDiffer | ColumnTaken(column: string) | TooManyRows

  datatype Config = Config(leftKeys: seq<string>, rightKeys: seq<string>, prefix: string, keepUnmatched: bool)

  // ----- output columns

  function Columns(rows: seq<Row>): set<string> {
    set r, f | r in rows && f in r :: f
  }

  function Target(left: set<string>, prefix: string, field: string): string {
    if field in left then prefix + field else field
  }

  ghost predicate OneToOne(names: map<string, string>) {
    forall f, g :: f in names && g in names && names[f] == names[g] ==> f == g
  }

  /** Every right column has its own place among the output columns, none of them a left column. */
  ghost predicate Naming(names: map<string, string>, left: set<string>, right: set<string>, prefix: string) {
    && names.Keys == right
    && (forall f :: f in names ==> names[f] == (if f in left then prefix + f else f) && names[f] !in left)
    && OneToOne(names)
  }

  /** Fails exactly when no such naming exists. */
  method NameColumns(left: set<string>, right: seq<string>, prefix: string) returns (r: Result<map<string, string>, JoinError>)
    requires Distinct(right)
    ensures r.Ok? ==> Naming(r.value, left, Elements(right), prefix)
    ensures r.Err? <==> !Nameable(left, right, prefix)
    ensures r.Err? ==> r.error.ColumnTaken?
  {
    var names: map<string, string>, occupied := map[], left;
    var i := 0;
    while i < |right|
      invariant i <= |right| && Naming(names, left, Elements(right[..i]), prefix)
      invariant forall c :: c in occupied <==> c in left || exists f :: f in names && names[f] == c
      invariant Nameable(left, right[..i], prefix)
    {
      var target := Target(left, prefix, right[i]);
      assert right[..i + 1] == right[..i] + [right[i]];
      if target in occupied {
        NotNameable(left, right, prefix, names, i);
        return Err(ColumnTaken(target));
      }
      MoreNameable(left, right, prefix, names, i);
      occupied, names := occupied + {target}, names[right[i] := target];
      i := i + 1;
    }
    assert right[..|right|] == right;
    r := Ok(names);
  }

  /** No renamed right column meets a left column or another right column. */
  ghost predicate Nameable(left: set<string>, right: seq<string>, prefix: string) {
    && (forall i :: 0 <= i < |right| ==> Target(left, prefix, right[i]) !in left)
    && (forall i, j :: 0 <= i < j < |right| ==> Target(left, prefix, right[i]) != Target(left, prefix, right[j]))
  }

  lemma NotNameable(left: set<string>, right: seq<string>, prefix: string, names: map<string, string>, i: nat)
    requires i < |right| && Naming(names, left, Elements(right[..i]), prefix)
    requires Target(left, prefix, right[i]) in left || exists f :: f in names && names[f] == Target(left, prefix, right[i])
    ensures !Nameable(left, right, prefix)
  {
    if Target(left, prefix, right[i]) !in left {
      var f :| f in names && names[f] == Target(left, prefix, right[i]);
      assert f in Elements(right[..i]);
      var j :| 0 <= j < i && right[j] == f;
    }
  }

  lemma MoreNameable(left: set<string>, right: seq<string>, prefix: string, names: map<string, string>, i: nat)
    requires i < |right| && Distinct(right) && Naming(names, left, Elements(right[..i]), prefix) && Nameable(left, right[..i], prefix)
    requires Target(left, prefix, right[i]) !in left && forall f :: f in names ==> names[f] != Target(left, prefix, right[i])
    ensures Naming(names[right[i] := Target(left, prefix, right[i])], left, Elements(right[..i + 1]), prefix)
    ensures Nameable(left, right[..i + 1], prefix)
  {
    assert right[..i + 1] == right[..i] + [right[i]];
    forall j | 0 <= j < i ensures right[j] in names { assert right[..i][j] in Elements(right[..i]); }
    var more := names[right[i] := Target(left, prefix, right[i])];
    forall f ensures f in more.Keys <==> f in Elements(right[..i + 1]) {
      assert f in names.Keys <==> f in Elements(right[..i]);
    }
  }

  // ----- matching and output rows

  /** `keyOf`: no key when a key column is missing or null. */
  function JoinKey(row: Row, keys: seq<string>): Option<seq<Json>> {
    if exists k :: 0 <= k < |keys| && (keys[k] !in row || row[keys[k]] == Null) then None else Some(BusinessKey(row, keys))
  }

  function JoinKeyOf(keys: seq<string>): Row -> Option<seq<Json>> {
    (row: Row) => JoinKey(row, keys)
  }

  /** Two rows match when all key columns are present, not null, and the same up to object key order. */
  ghost predicate Matches(l: Row, r: Row, config: Config)
    requires |config.leftKeys| == |config.rightKeys|
  {
    forall k :: 0 <= k < |config.leftKeys| ==>
      && config.leftKeys[k] in l && l[config.leftKeys[k]] != Null
      && config.rightKeys[k] in r && r[config.rightKeys[k]] != Null
      && Same(l[config.leftKeys[k]], r[config.rightKeys[k]])
  }

  lemma MatchesIffKeysEqual(l: Row, r: Row, config: Config)
    requires |config.leftKeys| == |config.rightKeys| && IsRow(l) && IsRow(r)
    ensures Matches(l, r, config) <==> JoinKey(l, config.leftKeys).Some? && JoinKey(l, config.leftKeys) == JoinKey(r, config.rightKeys)
  {
    var a, b := config.leftKeys, config.rightKeys;
    if JoinKey(l, a).Some? && JoinKey(r, b).Some? {
      forall k | 0 <= k < |a|
        ensures BusinessKey(l, a)[k] == BusinessKey(r, b)[k] <==> Same(l[a[k]], r[b[k]])
      {
        CanonicalIffSame(l[a[k]], r[b[k]]);
      }
      assert Matches(l, r, config) <==> BusinessKey(l, a) == BusinessKey(r, b);
    } else if JoinKey(l, a).None? {
      var k :| 0 <= k < |a| && (a[k] !in l || l[a[k]] == Null);
      assert !Matches(l, r, config);
    } else {
      var k :| 0 <= k < |b| && (b[k] !in r || r[b[k]] == Null);
      assert !Matches(l, r, config);
    }
  }

  function Cell(match': Option<Row>, field: string): Json {
    if match'.Some? && field in match'.value then match'.value[field] else Null
  }

  /** One output row: the spread of the left row and the renamed columns of its match. */
  function Combined(row: Row, match': Option<Row>, names: map<string, string>): Row
    requires OneToOne(names)
  {
    row + map f | f in names :: names[f] := Cell(match', f)
  }

  /** No column is lost or overwritten: every left column keeps its value, every right column
      appears under its name with its value or null, and there is nothing else. */
  lemma NothingOverwritten(row: Row, match': Option<Row>, names: map<string, string>, left: set<string>, right: set<string>, prefix: string)
    requires Naming(names, left, right, prefix) && row.Keys <= left
    ensures var out := Combined(row, match', names);
            && (forall f :: f in row ==> f in out && out[f] == row[f])
            && (forall f :: f in right ==> names[f] in out)
            && (forall f :: f in right && match'.Some? && f in match'.value ==> out[names[f]] == match'.value[f])
            && (forall f :: f in right && !(match'.Some? && f in match'.value) ==> out[names[f]] == Null)
            && (forall c :: c in out ==> c in row || exists f :: f in right && names[f] == c)
  {
  }

  // ----- the join

  /** The nested loop for one left row. */
  function RowJoins(row: Row, right: seq<Row>, config: Config, names: map<string, string>): seq<Row>
    requires OneToOne(names)
  {
    var key := JoinKey(row, config.leftKeys);
    var matches := if key.None? then [] else Filter(right, KeyIs(JoinKeyOf(config.rightKeys), key));
    if matches == [] then if config.keepUnmatched then [Combined(row, None, names)] else []
    else CombineAll(row, matches, names)
  }

  function CombineAll(row: Row, matches: seq<Row>, names: map<string, string>): (r: seq<Row>)
    requires OneToOne(names)
    ensures |r| == |matches| && forall i :: 0 <= i < |matches| ==> r[i] == Combined(row, Some(matches[i]), names)
  {
    if matches == [] then [] else [Combined(row, Some(matches[0]), names)] + CombineAll(row, matches[1..], names)
  }

  /** The nested-loop join, in the order of the left rows and, for each, of its matches. */
  function NestedLoop(left: seq<Row>, right: seq<Row>, config: Config, names: map<string, string>): seq<Row>
    requires OneToOne(names)
  {
    if left == [] then []
    else NestedLoop(left[..|left| - 1], right, config, names) + RowJoins(left[|left| - 1], right, config, names)
  }

  /** The right rows that match, in order, found by comparing with each of them. */
  ghost function Partners(row: Row, right: seq<Row>, config: Config): seq<Row>
    requires |config.leftKeys| == |config.rightKeys|
  {
    if right == [] then []
    else (if Matches(row, right[0], config) then [right[0]] else []) + Partners(row, right[1..], config)
  }

  /** The join without keys. */
  ghost function Joined(left: seq<Row>, right: seq<Row>, config: Config, names: map<string, string>): seq<Row>
    requires |config.leftKeys| == |config.rightKeys| && OneToOne(names)
  {
    if left == [] then []
    else
      var row := left[|left| - 1];
      var partners := Partners(row, right, config);
      Joined(left[..|left| - 1], right, config, names) +
      if partners != [] then CombineAll(row, partners, names)
      else if config.keepUnmatched then [Combined(row, None, names)] else []
  }

  lemma {:induction false} PartnersByKey(row: Row, right: seq<Row>, config: Config)
    requires |config.leftKeys| == |config.rightKeys| && IsRow(row) && AllRows(right)
    ensures var key := JoinKey(row, config.leftKeys);
            Partners(row, right, config) ==
            if key.None? then [] else Filter(right, KeyIs(JoinKeyOf(config.rightKeys), key))
  {
    hide Matches, JoinKey, IsRow;
    if right != [] {
      assert IsRow(right[0]);
      assert AllRows(right[1..]) by {
        forall i | 0 <= i < |right[1..]| ensures IsRow(right[1..][i]) { assert right[1..][i] == right[i + 1]; }
      }
      MatchesIffKeysEqual(row, right[0], config);
      PartnersByKey(row, right[1..], config);
    }
  }

  /** Hashed keys find exactly the matching rows: the operator computes the join without keys. */
  lemma {:induction false} NestedLoopIsJoined(left: seq<Row>, right: seq<Row>, config: Config, names: map<string, string>)
    requires |config.leftKeys| == |config.rightKeys| && OneToOne(names) && AllRows(left) && AllRows(right)
    ensures NestedLoop(left, right, config, names) == Joined(left, right, config, names)
  {
    hide Partners, CombineAll, Combined, JoinKey, IsRow;
    if left != [] {
      assert IsRow(left[|left| - 1]);
      NestedLoopIsJoined(left[..|left| - 1], right, config, names);
      PartnersByKey(left[|left| - 1], right, config);
    }
  }

  method BuildIndex(right: seq<Row>, keys: seq<string>) returns (index: map<Option<seq<Json>>, seq<Row>>)
    ensures forall key: Option<seq<Json>> :: key.Some? ==>
              Filter(right, KeyIs(JoinKeyOf(keys), key)) == if key in index then index[key] else []
  {
    index := BucketsBy(right, JoinKeyOf(keys));
  }

  /** The loop that fills the bucket map; rows without a key are skipped. */
  method BucketsBy<K(==,!new)>(rows: seq<Row>, keyOf: Row -> Option<K>) returns (index: map<Option<K>, seq<Row>>)
    ensures forall key: Option<K> :: key.Some? ==>
              Filter(rows, KeyIs(keyOf, key)) == if key in index then index[key] else []
  {
    index := map[];
    var i := 0;
    assert rows[..0] == [];
    while i < |rows|
      invariant i <= |rows|
      invariant forall key: Option<K> :: key.Some? ==>
                  Filter(rows[..i], KeyIs(keyOf, key)) == if key in index then index[key] else []
    {
      assert rows[..i + 1] == rows[..i] + [rows[i]];
      forall key: Option<K> | key.Some?
        ensures Filter(rows[..i + 1], KeyIs(keyOf, key)) ==
                Filter(rows[..i], KeyIs(keyOf, key)) + if keyOf(rows[i]) == key then [rows[i]] else []
      {
        FilterSnoc(rows[..i], rows[i], KeyIs(keyOf, key));
      }
      var key := keyOf(rows[i]);
      if key.Some? {
        var bucket := if key in index then index[key] else [];
        index := index[key := bucket + [rows[i]]];
      }
      i := i + 1;
    }
    assert rows[..|rows|] == rows;
  }

  /** The inner output loop: appends the combined rows, checking the limit before each. */
  method AppendMatches(rows0: seq<Row>, row: Row, matches: seq<Row>, names: map<string, string>, limit: nat)
    returns (rows: seq<Row>, full: bool)
    requires OneToOne(names) && |rows0| <= limit
    ensures full <==> |rows0| + |matches| > limit
    ensures !full ==> rows == rows0 + CombineAll(row, matches, names)
  {
    rows, full := rows0, false;
    ghost var more := CombineAll(row, matches, names);
    hide CombineAll, Combined, OneToOne;
    var k := 0;
    while k < |matches|
      invariant k <= |matches| && rows == rows0 + more[..k] && |rows| <= limit
    {
      if |rows| >= limit { return rows, true; }
      rows := rows + [Combined(row, Some(matches[k]), names)];
      assert more[..k + 1] == more[..k] + [more[k]];
      k := k + 1;
    }
  }

  /** The two output loops over the index. */
  method Probe(left: seq<Row>, right: seq<Row>, config: Config, names: map<string, string>, limit: nat)
    returns (r: Result<seq<Row>, JoinError>)
    requires OneToOne(names)
    ensures var all := NestedLoop(left, right, config, names);
            r == if |all| > limit then Err(TooManyRows) else Ok(all)
  {
    var index := BuildIndex(right, config.rightKeys);
    var rows: seq<Row> := [];
    var i := 0;
    assert left[..0] == [] && left[..|left|] == left;
    hide OneToOne, JoinKey, JoinKeyOf, KeyIs, CombineAll, Combined, NestedLoop, RowJoins;
    assert rows == NestedLoop(left[..0], right, config, names) by { NestedLoopEmpty(left, right, config, names); }
    while i < |left|
      invariant i <= |left| && rows == NestedLoop(left[..i], right, config, names) && |rows| <= limit
    {
      var key := JoinKey(left[i], config.leftKeys);
      var matches := if key.None? || key !in index then [] else index[key];
      RowJoinsByIndex(left, right, config, names, i, matches);
      NestedLoopGrows(left, right, config, names, i + 1);
      if matches == [] && config.keepUnmatched {
        if |rows| >= limit { return Err(TooManyRows); }
        rows := rows + [Combined(left[i], None, names)];
      }
      var full;
      rows, full := AppendMatches(rows, left[i], matches, names, limit);
      if full { return Err(TooManyRows); }
      i := i + 1;
    }
    r := Ok(rows);
  }

  lemma NestedLoopEmpty(left: seq<Row>, right: seq<Row>, config: Config, names: map<string, string>)
    requires OneToOne(names)
    ensures NestedLoop(left[..0], right, config, names) == []
  {
  }

  /** One more left row of the nested loop, given its matches. */
  lemma RowJoinsByIndex(left: seq<Row>, right: seq<Row>, config: Config, names: map<string, string>, i: nat, matches: seq<Row>)
    requires OneToOne(names) && i < |left|
    requires var key := JoinKey(left[i], config.leftKeys);
             matches == if key.None? then [] else Filter(right, KeyIs(JoinKeyOf(config.rightKeys), key))
    ensures NestedLoop(left[..i + 1], right, config, names) == NestedLoop(left[..i], right, config, names) +
            if matches == [] then if config.keepUnmatched then [Combined(left[i], None, names)] else []
            else CombineAll(left[i], matches, names)
    ensures CombineAll(left[i], [], names) == []
  {
    assert left[..i + 1][..i] == left[..i];
  }

  lemma {:induction false} NestedLoopGrows(left: seq<Row>, right: seq<Row>, config: Config, names: map<string, string>, i: nat)
    requires i <= |left| && OneToOne(names)
    ensures |NestedLoop(left[..i], right, config, names)| <= |NestedLoop(left, right, config, names)|
    decreases |left| - i
  {
    if i < |left| {
      NestedLoopGrows(left, right, config, names, i + 1);
      assert left[..i + 1][..i] == left[..i];
    } else {
      assert left[..i] == left;
    }
  }

  /** `joinDataflowRows`: the whole nested loop or an error, never a truncated result. */
  method JoinRows(left: seq<Row>, right: seq<Row>, rightFields: seq<string>, config: Config, limit: nat)
    returns (r: Result<seq<Row>, JoinError>, ghost names: map<string, string>)
    requires Distinct(rightFields) && Elements(rightFields) == Columns(right)
    ensures r == Err(KeyCountsDiffer) <==> |config.leftKeys| != |config.rightKeys|
    ensures |config.leftKeys| == |config.rightKeys| ==>
              (r.Err? && r.error.ColumnTaken? <==> !Nameable(Columns(left), rightFields, config.prefix))
    ensures |config.leftKeys| == |config.rightKeys| && Nameable(Columns(left), rightFields, config.prefix) ==>
              Naming(names, Columns(left), Columns(right), config.prefix) &&
                 var all := NestedLoop(left, right, config, names);
                 r == if |all| > limit then Err(TooManyRows) else Ok(all)
    ensures |config.leftKeys| == |config.rightKeys| && OneToOne(names) && AllRows(left) && AllRows(right) ==>
              NestedLoop(left, right, config, names) == Joined(left, right, config, names)
  {
    names := map[];
    if |config.leftKeys| != |config.rightKeys| { return Err(KeyCountsDiffer), names; }
    if AllRows(left) && AllRows(right) { NestedLoopIsJoined(left, right, config, names); }
    var leftFields := Columns(left);
    var named := NameColumns(leftFields, rightFields, config.prefix);
    if named.Err? { return Err(named.error), names; }
    names := named.value;
    if AllRows(left) && AllRows(right) { NestedLoopIsJoined(left, right, config, names); }
    r := Probe(left, right, config, named.value, limit);
  }
}
