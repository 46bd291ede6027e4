/** The authorised-page collector (server/workbench-pagination.ts): a batched scan with a one-row
    look-ahead and a scan limit, over a fixed table in strict cursor order. */
module Pagination {
  import opened Workflow

  /** `cursor` is the row's place in the list's total order of cursors. */
  datatype Row = Row(cursor: int, body: string)

  datatype Page = Page(items: seq<Row>, hasMore: bool, nextCursor: Option<int>)

  predicate Ordered(table: seq<Row>) {
    forall i, j :: 0 <= i < j < |table| ==> table[i].cursor < table[j].cursor
  }

  /** The rows after a cursor. */
  function After(table: seq<Row>, cursor: Option<int>): seq<Row> {
    if cursor.None? || table == [] || table[0].cursor > cursor.value then table else After(table[1..], cursor)
  }

  /** `loadBatch`: the query behind one batch. */
  function LoadBatch(table: seq<Row>, after: Option<int>, limit: nat): seq<Row> {
    After(table, after)[..Min(limit, |After(table, after)|)]
  }

  /** What one page is, with no mention of batches: the authorised rows among the next `scanLimit`
      ones, cut at `limit`; the cursor is the last row shown or, if nothing was cut, the last scanned. */
  function PageOf(rest: seq<Row>, allowed: Row -> bool, limit: nat, scanLimit: nat): Page
    requires limit >= 1 && scanLimit >= 1
  {
    var n := Min(scanLimit, |rest|);
    var found := Filter(rest[..n], allowed);
    if |found| > limit then Page(found[..limit], true, Some(found[limit - 1].cursor))
    else if |rest| < scanLimit then Page(found, false, None)
    else Page(found, true, Some(rest[n - 1].cursor))
  }

  lemma {:induction false} AfterIsSuffix(table: seq<Row>, cursor: Option<int>) returns (k: nat)
    requires Ordered(table)
    ensures k <= |table| && After(table, cursor) == table[k..] && Ordered(After(table, cursor))
    ensures cursor.Some? ==> (forall i :: 0 <= i < k ==> table[i].cursor <= cursor.value) &&
                             (forall i :: k <= i < |table| ==> table[i].cursor > cursor.value)
    ensures cursor.None? ==> k == 0
  {
    k := 0;
    if cursor.Some? && table != [] && table[0].cursor <= cursor.value {
      k := AfterIsSuffix(table[1..], cursor);
      k := k + 1;
    }
  }

  /** Continuing from the cursor of row `i` after a cursor continues right behind that row. */
  lemma AfterRow(table: seq<Row>, cursor: Option<int>, i: nat)
    requires Ordered(table) && i < |After(table, cursor)|
    ensures After(table, Some(After(table, cursor)[i].cursor)) == After(table, cursor)[i + 1..]
  {
    var k := AfterIsSuffix(table, cursor);
    var m := AfterIsSuffix(table, Some(table[k + i].cursor));
    if k + i + 1 < |table| { assert table[k + i + 1].cursor > table[k + i].cursor; }
  }

  /** Rows already collected stay in front of whatever is found further on. */
  lemma FoundPrefix(rest: seq<Row>, allowed: Row -> bool, m: nat, n: nat)
    requires m <= n <= |rest|
    ensures Filter(rest[..m], allowed) <= Filter(rest[..n], allowed)
  {
    assert rest[..n] == rest[..m] + rest[m..n];
    FilterConcat(rest[..m], rest[m..n], allowed);
  }

  /** The scan has looked at `scanned` rows after the page's cursor and kept the authorised ones. */
  ghost predicate Scan(table: seq<Row>, allowed: Row -> bool, rest: seq<Row>, scanned: nat,
                       after: Option<int>, lastScanned: Option<int>, authorized: seq<Row>)
  {
    && scanned <= |rest| && After(table, after) == rest[scanned..]
    && authorized == Filter(rest[..scanned], allowed)
    && (scanned > 0 ==> lastScanned == Some(rest[scanned - 1].cursor))
  }

  lemma ScanOne(table: seq<Row>, allowed: Row -> bool, cursor: Option<int>, scanned: nat,
                after: Option<int>, lastScanned: Option<int>, authorized: seq<Row>, row: Row)
    requires Ordered(table) && Scan(table, allowed, After(table, cursor), scanned, after, lastScanned, authorized)
    requires scanned < |After(table, cursor)| && row == After(table, cursor)[scanned]
    ensures Scan(table, allowed, After(table, cursor), scanned + 1, Some(row.cursor), Some(row.cursor),
                 authorized + if allowed(row) then [row] else [])
  {
    var rest := After(table, cursor);
    AfterRow(table, cursor, scanned);
    assert rest[..scanned + 1] == rest[..scanned] + [row];
    FilterSnoc(rest[..scanned], row, allowed);
  }

  lemma LoadedRows(table: seq<Row>, allowed: Row -> bool, rest: seq<Row>, scanned: nat,
                   after: Option<int>, lastScanned: Option<int>, authorized: seq<Row>, limit: nat)
    requires Scan(table, allowed, rest, scanned, after, lastScanned, authorized)
    ensures scanned <= |rest| && |LoadBatch(table, after, limit)| == Min(limit, |rest| - scanned)
    ensures forall j :: 0 <= j < |LoadBatch(table, after, limit)| ==> LoadBatch(table, after, limit)[j] == rest[scanned + j]
  {
  }

  /** The page that a finished scan stands for. */
  lemma ScanIsPage(table: seq<Row>, allowed: Row -> bool, rest: seq<Row>, scanned: nat, after: Option<int>,
                   lastScanned: Option<int>, authorized: seq<Row>, limit: nat, scanLimit: nat)
    requires limit >= 1 && scanLimit >= 1 && scanned <= scanLimit
    requires Scan(table, allowed, rest, scanned, after, lastScanned, authorized)
    requires |authorized| == limit + 1 || (|authorized| <= limit && scanned == Min(scanLimit, |rest|))
    ensures PageOf(rest, allowed, limit, scanLimit) ==
            if |authorized| > limit then Page(authorized[..limit], true, Some(authorized[limit - 1].cursor))
            else Page(authorized, |rest| >= scanLimit, if |rest| >= scanLimit then lastScanned else None)
  {
    FoundPrefix(rest, allowed, scanned, Min(scanLimit, |rest|));
    hide Filter, After;
  }

  /** The inner loop over the rows of one batch. */
  method ScanBatch(ghost table: seq<Row>, allowed: Row -> bool, ghost cursor: Option<int>, limit: nat, rows: seq<Row>,
                   scanned0: nat, after0: Option<int>, lastScanned0: Option<int>, authorized0: seq<Row>)
    returns (scanned: nat, after: Option<int>, lastScanned: Option<int>, authorized: seq<Row>)
    requires Ordered(table) && |authorized0| <= limit && scanned0 + |rows| <= |After(table, cursor)|
    requires Scan(table, allowed, After(table, cursor), scanned0, after0, lastScanned0, authorized0)
    requires forall j :: 0 <= j < |rows| ==> rows[j] == After(table, cursor)[scanned0 + j]
    ensures Scan(table, allowed, After(table, cursor), scanned, after, lastScanned, authorized)
    ensures (|authorized| == limit + 1 && scanned <= scanned0 + |rows|) || (|authorized| <= limit && scanned == scanned0 + |rows|)
    ensures rows != [] ==> scanned > scanned0
  {
    hide Scan, After, Ordered;
    scanned, after, lastScanned, authorized := scanned0, after0, lastScanned0, authorized0;
    var i := 0;
    while i < |rows|
      invariant i <= |rows| && scanned == scanned0 + i && |authorized| <= limit
      invariant Scan(table, allowed, After(table, cursor), scanned, after, lastScanned, authorized)
    {
      var row := rows[i];
      ScanOne(table, allowed, cursor, scanned, after, lastScanned, authorized, row);
      lastScanned, after := Some(row.cursor), Some(row.cursor);
      scanned, i := scanned + 1, i + 1;
      authorized := authorized + if allowed(row) then [row] else [];
      if |authorized| > limit { break; }
    }
  }

  method CollectAuthorizedPage(table: seq<Row>, allowed: Row -> bool, limit: nat, scanLimit: nat, batchSize: nat,
                               cursor: Option<int>) returns (page: Page)
    requires Ordered(table) && limit >= 1 && scanLimit >= 1 && batchSize >= 1
    ensures page == PageOf(After(table, cursor), allowed, limit, scanLimit)
  {
    ghost var rest := After(table, cursor);
    var authorized: seq<Row> := [];
    var after, lastScanned: Option<int> := cursor, None;
    var scanned, exhausted := 0, false;
    assert Scan(table, allowed, rest, scanned, after, lastScanned, authorized);
    hide Scan, PageOf, After, Ordered, LoadBatch;
    while |authorized| <= limit && scanned < scanLimit
      invariant Scan(table, allowed, rest, scanned, after, lastScanned, authorized)
      invariant scanned <= scanLimit && !exhausted && |authorized| <= limit + 1
      decreases scanLimit - scanned
    {
      var requestSize := Min(batchSize, scanLimit - scanned);
      var rows := LoadBatch(table, after, requestSize);
      LoadedRows(table, allowed, rest, scanned, after, lastScanned, authorized, requestSize);
      if rows == [] {
        exhausted := true;
        break;
      }
      scanned, after, lastScanned, authorized :=
        ScanBatch(table, allowed, cursor, limit, rows, scanned, after, lastScanned, authorized);
      if |authorized| > limit { break; }
      if |rows| < requestSize {
        exhausted := true;
        break;
      }
    }
    var hasMore := |authorized| > limit || !exhausted;
    var items := authorized[..Min(limit, |authorized|)];
    LoadedRows(table, allowed, rest, scanned, after, lastScanned, authorized, 0);
    ScanIsPage(table, allowed, rest, scanned, after, lastScanned, authorized, limit, scanLimit);
    page := Page(items, hasMore,
                 if !hasMore then None else if |authorized| > limit then Some(items[|items| - 1].cursor) else lastScanned);
  }

  // ----- following the cursors

  /** Everything a reader sees who follows `nextCursor` until there is none. */
  function FollowPages(table: seq<Row>, allowed: Row -> bool, limit: nat, scanLimit: nat, cursor: Option<int>): seq<Row>
    requires Ordered(table) && limit >= 1 && scanLimit >= 1
    decreases |After(table, cursor)|
  {
    var page := PageOf(After(table, cursor), allowed, limit, scanLimit);
    NextIsLater(table, allowed, limit, scanLimit, cursor);
    if page.nextCursor.None? then page.items
    else page.items + FollowPages(table, allowed, limit, scanLimit, page.nextCursor)
  }

  /** Where the next page starts: behind the row `m - 1` after this page's cursor, all earlier
      authorised rows being on this page.  Each cursor is strictly later than the one before. */
  lemma NextIsLater(table: seq<Row>, allowed: Row -> bool, limit: nat, scanLimit: nat, cursor: Option<int>)
    requires Ordered(table) && limit >= 1 && scanLimit >= 1
    ensures var page := PageOf(After(table, cursor), allowed, limit, scanLimit);
            var rest := After(table, cursor);
            page.nextCursor.Some? ==>
              && (cursor.Some? ==> page.nextCursor.value > cursor.value)
              && |After(table, page.nextCursor)| < |rest|
              && Filter(rest, allowed) == page.items + Filter(After(table, page.nextCursor), allowed)
  {
    var rest := After(table, cursor);
    var page := PageOf(rest, allowed, limit, scanLimit);
    if page.nextCursor.Some? {
      var m := PageEnd(rest, allowed, limit, scanLimit);
      AfterRow(table, cursor, m - 1);
      if cursor.Some? { AfterIsLater(table, cursor, m - 1); }
      assert rest == rest[..m] + rest[m..];
      FilterConcat(rest[..m], rest[m..], allowed);
    }
  }

  lemma AfterIsLater(table: seq<Row>, cursor: Option<int>, i: nat)
    requires Ordered(table) && i < |After(table, cursor)| && cursor.Some?
    ensures After(table, cursor)[i].cursor > cursor.value
  {
    var k := AfterIsSuffix(table, cursor);
    assert table[k + i].cursor > cursor.value;
  }

  /** The rows a page with a next cursor uses up, its cursor being that of the last of them. */
  lemma PageEnd(rest: seq<Row>, allowed: Row -> bool, limit: nat, scanLimit: nat) returns (m: nat)
    requires limit >= 1 && scanLimit >= 1 && PageOf(rest, allowed, limit, scanLimit).nextCursor.Some?
    ensures 0 < m <= |rest| && PageOf(rest, allowed, limit, scanLimit).nextCursor == Some(rest[m - 1].cursor)
    ensures PageOf(rest, allowed, limit, scanLimit).items == Filter(rest[..m], allowed)
  {
    m := Min(scanLimit, |rest|);
    var found := Filter(rest[..m], allowed);
    if |found| > limit {
      var n := m;
      m := CutAt(rest[..n], allowed, limit);
      assert rest[..n][..m] == rest[..m];
    }
  }

  /** The shortest prefix of the rows that holds `limit` authorised ones ends with the last of them. */
  lemma {:induction false} CutAt(rows: seq<Row>, allowed: Row -> bool, limit: nat) returns (m: nat)
    requires 1 <= limit < |Filter(rows, allowed)|
    ensures 0 < m <= |rows| && Filter(rows[..m], allowed) == Filter(rows, allowed)[..limit]
    ensures rows[m - 1] == Filter(rows, allowed)[limit - 1]
  {
    m := 0;
    while |Filter(rows[..m], allowed)| < limit
      invariant m <= |rows| && |Filter(rows[..m], allowed)| <= limit
      invariant m > 0 && |Filter(rows[..m], allowed)| == limit ==> rows[m - 1] == Filter(rows[..m], allowed)[limit - 1]
      decreases |rows| - m
    {
      assert rows[..|rows|] == rows;
      assert rows[..m + 1] == rows[..m] + [rows[m]];
      FilterSnoc(rows[..m], rows[m], allowed);
      m := m + 1;
    }
    assert rows == rows[..|rows|];
    FoundPrefix(rows, allowed, m, |rows|);
  }

  /** Following the cursors shows every authorised row exactly once, in order, whatever the page
      size and the scan limit. */
  lemma {:induction false} PagesShowEverything(table: seq<Row>, allowed: Row -> bool, limit: nat, scanLimit: nat, cursor: Option<int>)
    requires Ordered(table) && limit >= 1 && scanLimit >= 1
    ensures FollowPages(table, allowed, limit, scanLimit, cursor) == Filter(After(table, cursor), allowed)
    decreases |After(table, cursor)|
  {
    var rest := After(table, cursor);
    var page := PageOf(rest, allowed, limit, scanLimit);
    NextIsLater(table, allowed, limit, scanLimit, cursor);
    if page.nextCursor.Some? {
      PagesShowEverything(table, allowed, limit, scanLimit, page.nextCursor);
    } else {
      assert rest[..|rest|] == rest;
    }
  }

  /** From the start: all authorised rows of the table, none twice. */
  lemma PagesShowEachRowOnce(table: seq<Row>, allowed: Row -> bool, limit: nat, scanLimit: nat)
    requires Ordered(table) && limit >= 1 && scanLimit >= 1
    ensures var shown := FollowPages(table, allowed, limit, scanLimit, None);
            Ordered(shown) && forall row :: row in shown <==> row in table && allowed(row)
  {
    PagesShowEverything(table, allowed, limit, scanLimit, None);
    FilterMembers(table, allowed);
    FilterOrdered(table, allowed);
  }

  lemma {:induction false} FilterOrdered(table: seq<Row>, allowed: Row -> bool)
    requires Ordered(table)
    ensures Ordered(Filter(table, allowed))
  {
    if table != [] {
      FilterOrdered(table[1..], allowed);
      FilterMembers(table[1..], allowed);
      var more := Filter(table[1..], allowed);
      assert forall i :: 0 <= i < |more| ==> more[i] in table[1..];
    }
  }
}
