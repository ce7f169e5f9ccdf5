/**
 Keyset paging over the audit log, newest first. A database row's time is in
 microseconds; a cursor carries it as an ISO text in whole milliseconds. A table stands
 for the rows that pass the query's filter, as ORDER BY created_at DESC, id DESC lists them.
 */
module KeysetPaging {
  import opened Wrappers

  /** The primary key of a row: rows are ordered by time and then by id. */
  datatype Row = Row(createdAt: int, id: nat)

  predicate Less(a: Row, b: Row) {
    a.createdAt < b.createdAt || (a.createdAt == b.createdAt && a.id < b.id)
  }

  predicate Descending(table: seq<Row>) {
    forall i, j | 0 <= i < j < |table| :: Less(table[j], table[i])
  }

  /** The position after which a page starts: a row's key, its time cut down to the millisecond. */
  function CursorOf(r: Row): Row {
    Row(r.createdAt / 1000 * 1000, r.id)
  }

  /** The first index from k on whose row lies below the cursor. */
  function FirstBelow(table: seq<Row>, k: nat, after: Option<Row>): (n: nat)
    requires k <= |table|
    ensures k <= n <= |table|
    ensures forall i | k <= i < n :: after.Some? && !Less(table[i], after.value)
    ensures n < |table| ==> after.None? || Less(table[n], after.value)
    decreases |table| - k
  {
    if k == |table| || after.None? || Less(table[k], after.value) then k else FirstBelow(table, k + 1, after)
  }

  /** WHERE (created_at, id) < cursor: the rows that match are those from this index on. */
  function Start(table: seq<Row>, after: Option<Row>): (k: nat)
    requires Descending(table)
    ensures k <= |table|
    ensures forall i | 0 <= i < |table| :: i >= k <==> after.None? || Less(table[i], after.value)
  {
    FirstBelow(table, 0, after)
  }

  /** The rows from index k on, at most `limit` of them. */
  function Limit(table: seq<Row>, k: nat, limit: nat): (rows: seq<Row>)
    requires k <= |table|
    ensures |rows| == if k + limit < |table| then limit else |table| - k
    ensures forall i | 0 <= i < |rows| :: rows[i] == table[k + i]
  {
    table[k..if k + limit < |table| then k + limit else |table|]
  }

  datatype Page = Page(edges: seq<Row>, totalCount: nat, hasNextPage: bool, endCursor: Option<Row>)

  /** `findAuditLogs`: one row more than the page is fetched to know whether another page follows. */
  function FindAuditLogs(table: seq<Row>, first: nat, after: Option<Row>): Page
    requires Descending(table)
  {
    var k := Start(table, after);
    var dataRows := Limit(table, k, first + 1);
    var rows := if |dataRows| > first then dataRows[..first] else dataRows;
    Page(rows, |table| - k, |dataRows| > first,
         if |rows| > 0 then Some(CursorOf(rows[|rows| - 1])) else None)
  }

  /** The page by position: it starts at its cursor, and there is a next page exactly when it does not reach the end. */
  lemma PageAt(table: seq<Row>, first: nat, after: Option<Row>)
    requires Descending(table)
    ensures var p, k := FindAuditLogs(table, first, after), Start(table, after);
            && (p.hasNextPage <==> k + first < |table|)
            && p.edges == table[k..if p.hasNextPage then k + first else |table|]
            && p.totalCount == |table| - k
            && (p.hasNextPage && first > 0 ==> p.endCursor == Some(CursorOf(table[k + first - 1])))
  {
    var k := Start(table, after);
    var dataRows := Limit(table, k, first + 1);
    if |dataRows| > first {
      assert dataRows[..first] == table[k..k + first];
    }
  }

  // ---------------------------------------------------------------- the cursor

  /** r lies below the row `last`, but not below the cursor made of it. */
  predicate InGap(r: Row, last: Row) {
    Less(r, last) && !Less(r, CursorOf(last))
  }

  /**
   Exactly which rows a cursor loses: earlier ones of the same millisecond, unless they have
   its very start and a lower id.
   */
  lemma InGapIff(r: Row, last: Row)
    ensures InGap(r, last) <==>
            && (r.createdAt < last.createdAt || (r.createdAt == last.createdAt && r.id < last.id))
            && r.createdAt / 1000 == last.createdAt / 1000
            && !(r.createdAt % 1000 == 0 && r.id < last.id)
  {
  }

  /** A cursor never reaches above its row, and loses nothing when the row's time is in whole milliseconds. */
  lemma CursorBelow(r: Row, last: Row)
    ensures Less(r, CursorOf(last)) ==> Less(r, last)
    ensures last.createdAt % 1000 == 0 ==> !InGap(r, last)
  {
  }

  /** The cursor made of row e - 1 starts the next page at e, or after the rows in the gap. */
  lemma StartAfter(table: seq<Row>, e: nat)
    requires Descending(table) && 0 < e < |table|
    ensures var k := Start(table, Some(CursorOf(table[e - 1])));
            k >= e && (k == e <==> !InGap(table[e], table[e - 1]))
  {
    var k := Start(table, Some(CursorOf(table[e - 1])));
    assert !Less(table[e - 1], CursorOf(table[e - 1]));
    assert Less(table[e], table[e - 1]);
  }

  /**
   The cursor made of a row is passed exactly by the rows before its millisecond, and those
   of the very start of it with a lower id.
   */
  lemma StartIff(table: seq<Row>, last: Row, i: nat)
    requires Descending(table) && i < |table|
    ensures i >= Start(table, Some(CursorOf(last))) <==>
            || table[i].createdAt / 1000 < last.createdAt / 1000
            || (table[i].createdAt == last.createdAt / 1000 * 1000 && table[i].id < last.id)
  {
  }

  // ------------------------------------------------------------- following on

  /** The rows a client sees that follows `endCursor` from `after` until `hasNextPage` is false. */
  function Follow(table: seq<Row>, first: nat, after: Option<Row>): seq<Row>
    requires Descending(table) && first > 0
    decreases |table| - Start(table, after)
  {
    var p := FindAuditLogs(table, first, after);
    if p.hasNextPage then
      PageAt(table, first, after);
      StartAfter(table, Start(table, after) + first);
      p.edges + Follow(table, first, p.endCursor)
    else p.edges
  }

  /** Of the pages from k on, `first` rows each, none ends right above a row that its cursor loses. */
  predicate EndsClear(table: seq<Row>, first: nat, k: nat)
    requires first > 0
    decreases |table| - k
  {
    k + first < |table| ==> !InGap(table[k + first], table[k + first - 1]) && EndsClear(table, first, k + first)
  }

  /**
   What was seen from index k on is in order and from there, and it is everything exactly when
   no page end loses a row.
   */
  ghost predicate Faithful(table: seq<Row>, first: nat, k: nat, seen: seq<Row>)
    requires first > 0 && k <= |table|
  {
    && Descending(seen)
    && (forall r | r in seen :: r in table[k..])
    && |seen| <= |table| - k
    && (|seen| == |table| - k <==> EndsClear(table, first, k))
    && (EndsClear(table, first, k) ==> seen == table[k..])
  }

  lemma LastPageFaithful(table: seq<Row>, first: nat, k: nat, seen: seq<Row>)
    requires Descending(table) && first > 0 && k <= |table| <= k + first && seen == table[k..]
    ensures Faithful(table, first, k, seen)
  {
  }

  /** A page that has a next one, which starts at n, and what is seen from there on. */
  lemma PageFaithful(table: seq<Row>, first: nat, k: nat, n: nat, rest: seq<Row>, seen: seq<Row>)
    requires Descending(table) && first > 0 && k + first < |table| && k + first <= n <= |table|
    requires n == k + first <==> !InGap(table[k + first], table[k + first - 1])
    requires Faithful(table, first, n, rest) && seen == table[k..k + first] + rest
    ensures Faithful(table, first, k, seen)
  {
    Joined(table, k, k + first, n, rest);
  }

  /** Where the page after the one that starts at k starts. */
  function NextStart(table: seq<Row>, first: nat, k: nat): (n: nat)
    requires Descending(table) && first > 0 && k + first < |table|
    ensures k + first <= n <= |table|
    ensures n == k + first <==> !InGap(table[k + first], table[k + first - 1])
  {
    StartAfter(table, k + first);
    Start(table, Some(CursorOf(table[k + first - 1])))
  }

  /** The rows seen, by position. */
  function SeenFrom(table: seq<Row>, first: nat, k: nat): seq<Row>
    requires Descending(table) && first > 0 && k <= |table|
    decreases |table| - k
  {
    if k + first < |table| then table[k..k + first] + SeenFrom(table, first, NextStart(table, first, k)) else table[k..]
  }

  lemma FollowOn(table: seq<Row>, first: nat, after: Option<Row>, p: Page)
    requires Descending(table) && first > 0 && p == FindAuditLogs(table, first, after) && p.hasNextPage
    ensures Follow(table, first, after) == p.edges + Follow(table, first, p.endCursor)
  {
  }

  lemma SeenOn(table: seq<Row>, first: nat, k: nat)
    requires Descending(table) && first > 0 && k + first < |table|
    ensures SeenFrom(table, first, k) == table[k..k + first] + SeenFrom(table, first, NextStart(table, first, k))
  {
  }

  /** A page that has a next one, by position. */
  lemma FullPage(table: seq<Row>, first: nat, after: Option<Row>, k: nat, p: Page)
    requires Descending(table) && first > 0 && k == Start(table, after) && k + first < |table|
    requires p == FindAuditLogs(table, first, after)
    ensures p.hasNextPage && p.edges == table[k..k + first] && p.endCursor.Some?
    ensures NextStart(table, first, k) == Start(table, p.endCursor)
  {
    PageAt(table, first, after);
  }

  lemma LastPage(table: seq<Row>, first: nat, after: Option<Row>, k: nat)
    requires Descending(table) && first > 0 && k == Start(table, after) && k + first >= |table|
    ensures Follow(table, first, after) == table[k..] && SeenFrom(table, first, k) == table[k..]
  {
    PageAt(table, first, after);
  }

  lemma {:induction false} FollowIsSeen(table: seq<Row>, first: nat, after: Option<Row>, k: nat)
    requires Descending(table) && first > 0 && k == Start(table, after)
    ensures Follow(table, first, after) == SeenFrom(table, first, k)
    decreases |table| - k
  {
    if k + first < |table| {
      var p, n := FindAuditLogs(table, first, after), NextStart(table, first, k);
      FullPage(table, first, after, k, p);
      FollowOn(table, first, after, p);
      SeenOn(table, first, k);
      FollowIsSeen(table, first, p.endCursor, n);
    } else {
      LastPage(table, first, after, k);
    }
  }

  lemma {:induction false} SeenFaithful(table: seq<Row>, first: nat, k: nat)
    requires Descending(table) && first > 0 && k <= |table|
    ensures Faithful(table, first, k, SeenFrom(table, first, k))
    decreases |table| - k
  {
    if k + first < |table| {
      var n := NextStart(table, first, k);
      SeenFaithful(table, first, n);
      PageFaithful(table, first, k, n, SeenFrom(table, first, n), SeenFrom(table, first, k));
    } else {
      LastPageFaithful(table, first, k, SeenFrom(table, first, k));
    }
  }

  /**
   Following the cursors yields rows from `after` on in descending order, each at most
   once, and it yields all of them exactly when no page end loses one.
   */
  lemma FollowFrom(table: seq<Row>, first: nat, after: Option<Row>)
    requires Descending(table) && first > 0
    ensures Faithful(table, first, Start(table, after), Follow(table, first, after))
  {
    FollowIsSeen(table, first, after, Start(table, after));
    SeenFaithful(table, first, Start(table, after));
  }

  /** A page and rows from further down. */
  lemma Joined(table: seq<Row>, k: nat, e: nat, n: nat, rest: seq<Row>)
    requires Descending(table) && k <= e <= n <= |table|
    requires Descending(rest) && forall r | r in rest :: r in table[n..]
    ensures Descending(table[k..e] + rest)
    ensures forall r | r in table[k..e] + rest :: r in table[k..]
    ensures rest == table[e..] ==> table[k..e] + rest == table[k..]
  {
    var all := table[k..e] + rest;
    forall i, j | 0 <= i < j < |all| ensures Less(all[j], all[i]) {
      if i < e - k <= j {
        var r := rest[j - (e - k)];
        assert r in rest;
        var m := IndexFrom(table, n, r);
        assert all[j] == table[m] && all[i] == table[k + i];
      }
    }
    forall r | r in rest ensures r in table[k..] {
      var m := IndexFrom(table, n, r);
      assert table[k..][m - k] == r;
    }
  }

  lemma IndexFrom(table: seq<Row>, n: nat, r: Row) returns (m: nat)
    requires n <= |table| && r in table[n..]
    ensures n <= m < |table| && table[m] == r
  {
    var i :| 0 <= i < |table| - n && table[n..][i] == r;
    m := n + i;
  }

  /** No row of the table is lost below any other. */
  predicate NoGap(table: seq<Row>) {
    forall i | 0 < i < |table| :: !GapAt(table, i)
  }

  predicate GapAt(table: seq<Row>, i: nat)
    requires 0 < i < |table|
  {
    InGap(table[i], table[i - 1])
  }

  /**
   Every page size from one up yields the whole table exactly when it has no gap; at each
   page size by itself, exactly when no page of that size ends above one.
   */
  lemma PagingIsCompleteIff(table: seq<Row>)
    requires Descending(table)
    ensures (forall first: nat | first > 0 :: Follow(table, first, None) == table) <==> NoGap(table)
    ensures forall first: nat | first > 0 :: Follow(table, first, None) == table <==> EndsClear(table, first, 0)
  {
    assert table[0..] == table;
    forall first: nat | first > 0 ensures Follow(table, first, None) == table <==> EndsClear(table, first, 0) {
      FollowFrom(table, first, None);
    }
    if NoGap(table) {
      forall first: nat | first > 0 ensures Follow(table, first, None) == table {
        ClearWithoutGap(table, first, 0);
      }
    } else {
      assert !EndsClear(table, 1, 0) by {
        if EndsClear(table, 1, 0) { SinglesMeetAllGaps(table, 0); }
      }
      assert Follow(table, 1, None) != table;
    }
  }

  lemma {:induction false} ClearWithoutGap(table: seq<Row>, first: nat, k: nat)
    requires first > 0 && NoGap(table)
    ensures EndsClear(table, first, k)
    decreases |table| - k
  {
    if k + first < |table| {
      assert !GapAt(table, k + first);
      ClearWithoutGap(table, first, k + first);
    }
  }

  /** With one row to a page, every row but the last is the end of a page. */
  lemma {:induction false} SinglesMeetAllGaps(table: seq<Row>, k: nat)
    requires EndsClear(table, 1, k)
    ensures forall i | k < i < |table| :: !GapAt(table, i)
    decreases |table| - k
  {
    if k + 1 < |table| {
      SinglesMeetAllGaps(table, k + 1);
    }
  }

  predicate WholeMillis(table: seq<Row>) {
    forall i | 0 <= i < |table| :: table[i].createdAt % 1000 == 0
  }

  /** Rows whose times are in whole milliseconds, as the audit emitter writes them, are all seen, in order and once. */
  lemma WholeMillisComplete(table: seq<Row>, first: nat)
    requires Descending(table) && first > 0 && WholeMillis(table)
    ensures Follow(table, first, None) == table
  {
    forall i | 0 < i < |table| ensures !GapAt(table, i) {
      CursorBelow(table[i], table[i - 1]);
    }
    PagingIsCompleteIff(table);
  }

  /**
   Two rows a microsecond apart, as the column's default time may make them: paged one by one,
   they are not both seen.
   */
  lemma MicrosecondsLoseARow()
    ensures var table := [Row(5_001, 1), Row(5_000, 2)];
            Descending(table) && !NoGap(table) && Follow(table, 1, None) != table
  {
    var table := [Row(5_001, 1), Row(5_000, 2)];
    assert GapAt(table, 1);
    assert !EndsClear(table, 1, 0);
    PagingIsCompleteIff(table);
  }

  // ------------------------------------------------- rows inserted between pages

  /** A client following the cursors while rows are inserted: the table as each page found it. */
  datatype Session = Session(tables: seq<seq<Row>>, first: nat)

  predicate Contains(table: seq<Row>, rows: seq<Row>) {
    forall r | r in rows :: r in table
  }

  /** Page i finds the rows that the page before it found. */
  predicate Grown(tables: seq<seq<Row>>, i: nat)
    requires 0 < i < |tables|
  {
    Contains(tables[i], tables[i - 1])
  }

  predicate Growing(s: Session) {
    && s.first > 0
    && (forall i | 0 <= i < |s.tables| :: Descending(s.tables[i]))
    && forall i | 0 < i < |s.tables| :: Grown(s.tables, i)
  }

  /** The cursor with which the page after the first n is asked for. */
  function After(pages: seq<Page>, n: nat): Option<Row>
    requires n <= |pages|
  {
    if n == 0 then None else pages[n - 1].endCursor
  }

  /** The first n pages: each is asked for with the cursor of the one before, from the table as it then is. */
  function Pages(s: Session, n: nat): (pages: seq<Page>)
    requires Growing(s) && n <= |s.tables|
    ensures |pages| == n
  {
    if n == 0 then []
    else
      var before := Pages(s, n - 1);
      before + [FindAuditLogs(s.tables[n - 1], s.first, After(before, n - 1))]
  }

  /** The rows seen on the first n pages. */
  function Seen(pages: seq<Page>, n: nat): seq<Row>
    requires n <= |pages|
  {
    if n == 0 then [] else Seen(pages, n - 1) + pages[n - 1].edges
  }

  predicate AllAbove(rows: seq<Row>, after: Option<Row>) {
    forall r | r in rows :: after.Some? && !Less(r, after.value)
  }

  predicate IsBelow(r: Row, after: Option<Row>) {
    after.None? || Less(r, after.value)
  }

  /** What a page promises: rows below its cursor, in order, down to the row that the next cursor is made of. */
  ghost predicate PageOk(table: seq<Row>, after: Option<Row>, p: Page) {
    && Descending(p.edges) && (forall r | r in p.edges :: IsBelow(r, after))
    && (p.hasNextPage ==> p.edges != [] && p.endCursor == Some(CursorOf(Last(p))) && NotAtEnd(table, Last(p)))
    && forall r | r in table && IsBelow(r, after) :: r in p.edges || (p.hasNextPage && Less(r, Last(p)))
  }

  ghost predicate NotAtEnd(table: seq<Row>, r: Row) {
    exists i :: 0 <= i < |table| - 1 && table[i] == r
  }

  function Last(p: Page): Row {
    if p.edges == [] then Row(0, 0) else p.edges[|p.edges| - 1]
  }

  lemma EdgesBelow(table: seq<Row>, first: nat, after: Option<Row>)
    requires Descending(table) && first > 0
    ensures var p := FindAuditLogs(table, first, after);
            Descending(p.edges) && forall r | r in p.edges :: IsBelow(r, after)
  {
    PageAt(table, first, after);
    var p, k := FindAuditLogs(table, first, after), Start(table, after);
    forall i | 0 <= i < |p.edges| ensures p.edges[i] == table[k + i] && IsBelow(p.edges[i], after) {
    }
  }

  lemma PageLast(table: seq<Row>, first: nat, after: Option<Row>)
    requires Descending(table) && first > 0 && FindAuditLogs(table, first, after).hasNextPage
    ensures var p, e := FindAuditLogs(table, first, after), Start(table, after) + first;
            && 0 < e < |table| && p.edges != [] && Last(p) == table[e - 1]
            && p.endCursor == Some(CursorOf(Last(p))) && NotAtEnd(table, Last(p))
  {
    PageAt(table, first, after);
  }

  lemma OnPageOrBelow(table: seq<Row>, first: nat, after: Option<Row>, i: nat)
    requires Descending(table) && first > 0 && i < |table| && IsBelow(table[i], after)
    ensures var p := FindAuditLogs(table, first, after);
            table[i] in p.edges || (p.hasNextPage && Less(table[i], Last(p)))
  {
    PageAt(table, first, after);
    var p, k := FindAuditLogs(table, first, after), Start(table, after);
    if i < k + |p.edges| {
      assert p.edges[i - k] == table[i];
    } else {
      PageLast(table, first, after);
      assert Less(table[i], table[k + first - 1]);
    }
  }

  lemma FindAuditLogsOk(table: seq<Row>, first: nat, after: Option<Row>, p: Page)
    requires Descending(table) && first > 0 && p == FindAuditLogs(table, first, after)
    ensures PageOk(table, after, p)
  {
    EdgesBelow(table, first, after);
    if p.hasNextPage { PageLast(table, first, after); }
    forall i | 0 <= i < |table| && IsBelow(table[i], after)
      ensures table[i] in p.edges || (p.hasNextPage && Less(table[i], Last(p)))
    {
      OnPageOrBelow(table, first, after, i);
    }
  }

  ghost predicate OkAt(tables: seq<seq<Row>>, pages: seq<Page>, m: nat)
    requires m < |pages| <= |tables|
  {
    PageOk(tables[m], After(pages, m), pages[m])
  }

  ghost predicate AllOk(tables: seq<seq<Row>>, pages: seq<Page>) {
    |pages| <= |tables| && forall m | 0 <= m < |pages| :: OkAt(tables, pages, m)
  }

  /** A client that has asked for these pages, each but the last with a next one. */
  ghost predicate Followed(tables: seq<seq<Row>>, pages: seq<Page>) {
    && AllOk(tables, pages)
    && forall m | 0 <= m < |pages| - 1 :: pages[m].hasNextPage
  }

  lemma OkWithMore(tables: seq<seq<Row>>, pages: seq<Page>, n: nat, after: Option<Row>, p: Page)
    requires AllOk(tables, pages) && |pages| == n < |tables|
    requires after == After(pages, n) && PageOk(tables[n], after, p)
    ensures AllOk(tables, pages + [p])
  {
    var all := pages + [p];
    forall m | 0 <= m <= n ensures OkAt(tables, all, m) {
      assert After(all, m) == After(pages, m);
      assert m < n ==> OkAt(tables, pages, m);
    }
  }

  lemma OneMorePage(s: Session, n: nat)
    requires Growing(s) && n < |s.tables| && AllOk(s.tables, Pages(s, n))
    ensures AllOk(s.tables, Pages(s, n + 1))
  {
    var before := Pages(s, n);
    var after := After(before, n);
    var p := FindAuditLogs(s.tables[n], s.first, after);
    FindAuditLogsOk(s.tables[n], s.first, after, p);
    OkWithMore(s.tables, before, n, after, p);
    assert Pages(s, n + 1) == before + [p];
  }

  lemma {:induction false} PagesOk(s: Session, n: nat)
    requires Growing(s) && n <= |s.tables|
    ensures AllOk(s.tables, Pages(s, n))
  {
    if n > 0 {
      PagesOk(s, n - 1);
      OneMorePage(s, n - 1);
    }
  }

  lemma {:induction false} TablesGrow(s: Session, i: nat)
    requires Growing(s) && i < |s.tables|
    ensures Contains(s.tables[i], s.tables[0])
  {
    if i > 0 {
      TablesGrow(s, i - 1);
      assert Grown(s.tables, i);
    }
  }

  /** Rows below a cursor go on from rows that are not. */
  lemma OrderGoesOn(seen: seq<Row>, edges: seq<Row>, after: Option<Row>)
    requires Descending(seen) && AllAbove(seen, after)
    requires Descending(edges) && forall r | r in edges :: IsBelow(r, after)
    ensures Descending(seen + edges)
  {
    forall i, j | 0 <= i < |seen| && 0 <= j < |edges| ensures Less(edges[j], seen[i]) {
      assert seen[i] in seen && edges[j] in edges;
      LessTrans(edges[j], after.value, seen[i]);
    }
  }

  /** Rows down to the last of a page lie above the cursor made of it. */
  lemma AboveCursor(rows: seq<Row>, last: Row)
    requires Descending(rows) && rows != [] && rows[|rows| - 1] == last
    ensures AllAbove(rows, Some(CursorOf(last)))
  {
    forall i | 0 <= i < |rows| ensures !Less(rows[i], CursorOf(last)) {
      if i < |rows| - 1 { assert Less(rows[|rows| - 1], rows[i]); }
      CursorBelow(rows[i], last);
    }
  }

  /** Below one row and that row not below another. */
  lemma LessTrans(a: Row, b: Row, c: Row)
    requires Less(a, b) && !Less(c, b)
    ensures Less(a, c)
  {
  }

  lemma {:induction false} OrderSoFar(tables: seq<seq<Row>>, pages: seq<Page>, n: nat)
    requires Followed(tables, pages) && n <= |pages|
    ensures Descending(Seen(pages, n))
    ensures n == 0 || pages[n - 1].hasNextPage ==> AllAbove(Seen(pages, n), After(pages, n))
    ensures n > 0 && pages[n - 1].hasNextPage ==>
              Seen(pages, n) != [] && Seen(pages, n)[|Seen(pages, n)| - 1] == Last(pages[n - 1])
  {
    if n > 0 {
      OrderSoFar(tables, pages, n - 1);
      assert OkAt(tables, pages, n - 1);
      OrderGoesOn(Seen(pages, n - 1), pages[n - 1].edges, After(pages, n - 1));
      if pages[n - 1].hasNextPage { AboveCursor(Seen(pages, n), Last(pages[n - 1])); }
    }
  }

  /** The cursor that page m hands out loses r. */
  predicate LosesAt(pages: seq<Page>, m: nat, r: Row)
    requires m < |pages|
  {
    pages[m].hasNextPage && InGap(r, Last(pages[m]))
  }

  lemma {:induction false} KeptSoFar(tables: seq<seq<Row>>, pages: seq<Page>, n: nat, r: Row)
    requires Followed(tables, pages) && n <= |pages| && n > 0
    requires forall m | 0 <= m < n :: r in tables[m] && !LosesAt(pages, m, r)
    ensures r in Seen(pages, n) || (pages[n - 1].hasNextPage && IsBelow(r, After(pages, n)))
  {
    if n > 1 {
      KeptSoFar(tables, pages, n - 1, r);
    }
    assert OkAt(tables, pages, n - 1) && !LosesAt(pages, n - 1, r);
  }

  /** Each cursor lies below those before it. */
  lemma {:induction false} CursorsFall(tables: seq<seq<Row>>, pages: seq<Page>, i: nat, n: nat)
    requires Followed(tables, pages) && 0 < i <= n <= |pages| && pages[n - 1].hasNextPage
    ensures After(pages, n).Some? && After(pages, i).Some?
    ensures After(pages, n) == After(pages, i) || Less(After(pages, n).value, After(pages, i).value)
    decreases n
  {
    assert OkAt(tables, pages, n - 1);
    if i < n {
      CursorsFall(tables, pages, i, n - 1);
      assert Last(pages[n - 1]) in pages[n - 1].edges;
      CursorFalls(Last(pages[n - 1]), After(pages, n - 1).value, After(pages, i).value);
    }
  }

  lemma CursorFalls(last: Row, cursor: Row, earlier: Row)
    requires Less(last, cursor) && (cursor == earlier || Less(cursor, earlier))
    ensures Less(CursorOf(last), earlier)
  {
  }

  lemma BelowLast(seen: seq<Row>, r: Row)
    requires Descending(seen) && seen != [] && Less(r, seen[|seen| - 1])
    ensures r !in seen
  {
    forall k | 0 <= k < |seen| ensures seen[k] != r {
      if k < |seen| - 1 { assert Less(seen[|seen| - 1], seen[k]); }
    }
  }

  /** What is not below a cursor is on no page that starts there or further down. */
  lemma NotOnLowerPage(p: Page, after: Row, cursor: Row, r: Row)
    requires forall x | x in p.edges :: IsBelow(x, Some(after))
    requires (after == cursor || Less(after, cursor)) && !Less(r, cursor)
    ensures r !in p.edges
  {
    assert r in p.edges ==> IsBelow(r, Some(after));
  }

  /** A row that the cursor of the last page loses is on no page so far. */
  lemma LostIsNotAbove(tables: seq<seq<Row>>, pages: seq<Page>, n: nat, r: Row)
    requires Followed(tables, pages) && 0 < n <= |pages| && LosesAt(pages, n - 1, r)
    ensures r !in Seen(pages, n)
  {
    OrderSoFar(tables, pages, n);
    BelowLast(Seen(pages, n), r);
  }

  /** Nor is a row that an earlier cursor loses on the last page. */
  lemma LostIsNotBelow(tables: seq<seq<Row>>, pages: seq<Page>, m: nat, n: nat, r: Row)
    requires Followed(tables, pages) && m + 1 < n <= |pages| && LosesAt(pages, m, r)
    ensures r !in pages[n - 1].edges
  {
    assert OkAt(tables, pages, m) && OkAt(tables, pages, n - 1);
    CursorsFall(tables, pages, m + 1, n - 1);
    NotOnLowerPage(pages[n - 1], After(pages, n - 1).value, After(pages, m + 1).value, r);
  }

  /** A row that a cursor loses is on no page, neither before it nor after. */
  lemma {:induction false} LostIsUnseen(tables: seq<seq<Row>>, pages: seq<Page>, m: nat, n: nat, r: Row)
    requires Followed(tables, pages) && m < n <= |pages| && LosesAt(pages, m, r)
    ensures r !in Seen(pages, n)
    decreases n
  {
    if n == m + 1 {
      LostIsNotAbove(tables, pages, n, r);
    } else {
      LostIsUnseen(tables, pages, m, n - 1, r);
      LostIsNotBelow(tables, pages, m, n, r);
    }
  }

  /** However rows are inserted between pages, what a client sees is in descending order and nothing comes twice. */
  lemma SessionInOrder(s: Session, n: nat)
    requires Growing(s) && n <= |s.tables|
    requires forall m | 0 <= m < n - 1 :: Pages(s, n)[m].hasNextPage
    ensures var seen := Seen(Pages(s, n), n);
            forall i, j | 0 <= i < j < |seen| ::
              || seen[i].createdAt > seen[j].createdAt
              || (seen[i].createdAt == seen[j].createdAt && seen[i].id > seen[j].id)
  {
    PagesOk(s, n);
    OrderSoFar(s.tables, Pages(s, n), n);
  }

  /** The client stops when there is no next page, and not before. */
  predicate ToTheEnd(pages: seq<Page>) {
    pages != [] && forall m | 0 <= m < |pages| :: pages[m].hasNextPage <==> m + 1 < |pages|
  }

  /**
   Rows are inserted between pages, and a client follows the cursors to the end. Of the rows
   that were there from the start it sees exactly those that no cursor on its way loses.
   */
  lemma SessionSeesIff(s: Session, r: Row)
    requires Growing(s) && ToTheEnd(Pages(s, |s.tables|)) && r in s.tables[0]
    ensures var n, pages := |s.tables|, Pages(s, |s.tables|);
            r in Seen(pages, n) <==> forall m | 0 <= m < n :: !LosesAt(pages, m, r)
  {
    var n, pages := |s.tables|, Pages(s, |s.tables|);
    PagesOk(s, n);
    if m: nat :| m < n && LosesAt(pages, m, r) {
      LostIsUnseen(s.tables, pages, m, n, r);
    } else {
      forall m | 0 <= m < n ensures r in s.tables[m] { TablesGrow(s, m); }
      KeptSoFar(s.tables, pages, n, r);
    }
  }

  /** Where no row is lost right below the last row of a page, none is lost further down. */
  lemma GapStartsBelow(table: seq<Row>, e: nat, i: nat)
    requires Descending(table) && 0 < e < |table| && i < |table| && !GapAt(table, e)
    ensures !InGap(table[i], table[e - 1])
  {
    if i > e {
      LessTrans(table[i], table[e], CursorOf(table[e - 1]));
    }
  }

  lemma NotLostWithoutGap(table: seq<Row>, after: Option<Row>, p: Page, r: Row)
    requires Descending(table) && PageOk(table, after, p) && NoGap(table) && r in table
    ensures p.hasNextPage ==> !InGap(r, Last(p))
  {
    if p.hasNextPage {
      var e :| 0 <= e < |table| - 1 && table[e] == Last(p);
      var i :| 0 <= i < |table| && table[i] == r;
      GapStartsBelow(table, e + 1, i);
    }
  }

  /** Without gaps, as with times in whole milliseconds, it sees every row that was there from the start. */
  lemma SessionSeesEverything(s: Session)
    requires Growing(s) && ToTheEnd(Pages(s, |s.tables|))
    requires forall i | 0 <= i < |s.tables| :: NoGap(s.tables[i])
    ensures forall r | r in s.tables[0] :: r in Seen(Pages(s, |s.tables|), |s.tables|)
  {
    var n, pages := |s.tables|, Pages(s, |s.tables|);
    PagesOk(s, n);
    forall r | r in s.tables[0] ensures r in Seen(pages, n) {
      forall m | 0 <= m < n ensures !LosesAt(pages, m, r) {
        TablesGrow(s, m);
        assert OkAt(s.tables, pages, m);
        NotLostWithoutGap(s.tables[m], After(pages, m), pages[m], r);
      }
      SessionSeesIff(s, r);
    }
  }

  // ------------------------------------------------------------- cursor text

  datatype DecodeError = InvalidCursorFormat

  /** `lastIndexOf`. */
  function LastIndexOf(s: string, c: char): (k: Option<nat>)
    ensures k.Some? ==> k.value < |s| && s[k.value] == c && c !in s[k.value + 1..]
    ensures k.None? ==> c !in s
  {
    if s == "" then None
    else if s[|s| - 1] == c then Some(|s| - 1)
    else
      var k := LastIndexOf(s[..|s| - 1], c);
      NotAtEndEither(s, c, if k.Some? then k.value + 1 else 0);
      k
  }

  lemma NotAtEndEither(s: string, c: char, i: nat)
    requires i < |s| && s[|s| - 1] != c && c !in s[..|s| - 1][i..]
    ensures c !in s[i..]
  {
    assert s[i..] == s[..|s| - 1][i..] + [s[|s| - 1]];
  }

  predicate IsHex(c: char) {
    '0' <= c <= '9' || 'a' <= c <= 'f' || 'A' <= c <= 'F'
  }

  /** UUID_RE: hexadecimal digits in groups of 8, 4, 4, 4 and 12. */
  predicate IsUuid(s: string) {
    |s| == 36 && forall i | 0 <= i < 36 :: if i in {8, 13, 18, 23} then s[i] == '-' else IsHex(s[i])
  }

  /** The text of a cursor, before base64url. */
  function CursorText(timestamp: string, id: string): string {
    timestamp + ":" + id
  }

  /** `decodeCursor` after base64url; `parses` tells which texts Date.parse takes. */
  function DecodeCursor(decoded: string, parses: string -> bool): Result<(string, string), DecodeError> {
    var separatorIndex := LastIndexOf(decoded, ':');
    if separatorIndex.None? then Err(InvalidCursorFormat)
    else
      var timestamp, id := decoded[..separatorIndex.value], decoded[separatorIndex.value + 1..];
      if !parses(timestamp) || !IsUuid(id) then Err(InvalidCursorFormat) else Ok((timestamp, id))
  }

  lemma UuidHasNoColon(id: string)
    requires IsUuid(id)
    ensures ':' !in id
  {
  }

  lemma {:induction false} LastColon(timestamp: string, id: string)
    requires ':' !in id
    ensures LastIndexOf(CursorText(timestamp, id), ':') == Some(|timestamp|)
  {
    if id != "" {
      var shorter := id[..|id| - 1];
      assert CursorText(timestamp, id)[..|timestamp| + |id|] == CursorText(timestamp, shorter);
      LastColon(timestamp, shorter);
    }
  }

  /**
   Decoding is exactly the inverse of encoding: a cursor made of a time and a UUID is read
   back however many colons the time has, and nothing else is accepted.
   */
  lemma DecodeIffEncoded(decoded: string, parses: string -> bool, timestamp: string, id: string)
    ensures DecodeCursor(decoded, parses) == Ok((timestamp, id)) <==>
            decoded == timestamp + ":" + id && parses(timestamp) && IsUuid(id)
    ensures IsUuid(id) <==>
            && |id| == 36 && id[8] == id[13] == id[18] == id[23] == '-'
            && forall i | 0 <= i < 36 && i != 8 && i != 13 && i != 18 && i != 23 ::
                 '0' <= id[i] <= '9' || 'a' <= id[i] <= 'f' || 'A' <= id[i] <= 'F'
  {
    if decoded == CursorText(timestamp, id) && IsUuid(id) {
      UuidHasNoColon(id);
      LastColon(timestamp, id);
      assert decoded[..|timestamp|] == timestamp && decoded[|timestamp| + 1..] == id;
    }
    var k := LastIndexOf(decoded, ':');
    if k.Some? {
      assert decoded == decoded[..k.value] + ":" + decoded[k.value + 1..];
    }
  }
}
