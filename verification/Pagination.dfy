/**
 Keyset pagination over a table that may change between pages. Rows are ordered by time and then id, both descending.
 The column keeps microseconds, and its default fills them; a cursor carries milliseconds.
 */
module Pagination {
  import opened Wrappers

  /** The key of a row: its time in microseconds and its unique id. */
  datatype Row = Row(time: int, id: nat)

  /** A cursor names a whole millisecond. */
  datatype Cursor = Cursor(millis: int, id: nat)

  datatype Page = Page(items: seq<Row>, next: Option<Cursor>)

  const DEFAULT_PAGE_SIZE := 25
  const MAXIMUM_PAGE_SIZE := 100

  function PageLimit(value: Option<int>): (r: Result<nat, string>)
    ensures r.Ok? <==> value.None? || 1 <= value.value <= MAXIMUM_PAGE_SIZE
    ensures r.Ok? ==> 1 <= r.value <= MAXIMUM_PAGE_SIZE
  {
    var limit := if value.None? then DEFAULT_PAGE_SIZE else value.value;
    if limit < 1 || limit > MAXIMUM_PAGE_SIZE then Err("INVALID_PAGINATION_CURSOR") else Ok(limit)
  }

  predicate Before(a: Row, b: Row) {
    a.time < b.time || (a.time == b.time && a.id < b.id)
  }

  /** Down to the millisecond. */
  function CursorOf(row: Row): Cursor {
    Cursor(row.time / 1000, row.id)
  }

  predicate Visible(row: Row, cursor: Option<Cursor>) {
    cursor.None? || Before(row, Row(cursor.value.millis * 1000, cursor.value.id))
  }

  ghost predicate Descending(rows: seq<Row>) {
    forall i, j :: 0 <= i < j < |rows| ==> Before(rows[j], rows[i])
  }

  /** The query, its limit of one more than the page, and the cursor: what a page must be. */
  ghost predicate IsPage(table: set<Row>, cursor: Option<Cursor>, limit: nat, page: Page) {
    && Descending(page.items)
    && (forall r :: r in page.items ==> r in table && Visible(r, cursor))
    && match page.next
       case None =>
         |page.items| <= limit && forall r :: r in table && Visible(r, cursor) ==> r in page.items
       case Some(next) =>
         && |page.items| == limit >= 1
         && next == CursorOf(page.items[limit - 1])
         && forall r :: r in table && Visible(r, cursor) && r !in page.items ==> Before(r, page.items[limit - 1])
  }

  // ---------------------------------------------------------------- reading one page

  method InsertDescending(rows: seq<Row>, row: Row) returns (r: seq<Row>)
    requires Descending(rows) && row !in rows
    ensures Descending(r) && forall x :: x in r <==> x in rows || x == row
  {
    var i := 0;
    while i < |rows| && Before(row, rows[i])
      invariant i <= |rows| && forall j :: 0 <= j < i ==> Before(row, rows[j])
    {
      i := i + 1;
    }
    r := rows[..i] + [row] + rows[i..];
    assert forall x :: x in rows <==> x in rows[..i] || x in rows[i..];
    assert i < |rows| ==> rows[i] in rows;
  }

  /** The rows in whatever order the database keeps them, sorted and cut. */
  method ListPage(table: seq<Row>, cursor: Option<Cursor>, requested: Option<int>) returns (r: Result<Page, string>)
    requires forall i, j :: 0 <= i < j < |table| ==> table[i] != table[j]
    ensures r.Ok? <==> PageLimit(requested).Ok?
    ensures r.Ok? ==> IsPage((set row | row in table), cursor, PageLimit(requested).value, r.value)
    ensures r.Err? ==> r.error == "INVALID_PAGINATION_CURSOR"
  {
    var limit := PageLimit(requested);
    if limit.Err? {
      return Err(limit.error);
    }
    var sorted: seq<Row> := [];
    for i := 0 to |table|
      invariant Descending(sorted)
      invariant forall x :: x in sorted <==> x in table[..i] && Visible(x, cursor)
    {
      assert table[..i + 1] == table[..i] + [table[i]];
      assert forall j :: 0 <= j < i ==> table[j] != table[i];
      if Visible(table[i], cursor) {
        sorted := InsertDescending(sorted, table[i]);
      }
    }
    assert table[..|table|] == table;
    CutIsPage((set row | row in table), cursor, limit.value, sorted);
    return Ok(Cut(sorted, limit.value));
  }

  /** take limit + 1, and the cursor of the last item when there was one more. */
  function Cut(sorted: seq<Row>, limit: nat): Page
    requires limit >= 1
  {
    if |sorted| > limit then Page(sorted[..limit], Some(CursorOf(sorted[limit - 1]))) else Page(sorted, None)
  }

  lemma CutIsPage(table: set<Row>, cursor: Option<Cursor>, limit: nat, sorted: seq<Row>)
    requires limit >= 1 && Descending(sorted)
    requires forall x :: x in sorted <==> x in table && Visible(x, cursor)
    ensures IsPage(table, cursor, limit, Cut(sorted, limit))
  {
    var page := Cut(sorted, limit);
    assert forall r :: r in page.items ==> r in sorted;
    if |sorted| > limit {
      forall r | r in sorted && r !in page.items ensures Before(r, page.items[limit - 1]) {
        var rest := sorted[limit..];
        assert sorted == page.items + rest;
        var k :| 0 <= k < |rest| && rest[k] == r;
        assert sorted[limit + k] == r;
      }
    }
  }

  // ---------------------------------------------------------------- following the cursors

  /** Where a run of pages has got to. */
  ghost function End(pages: seq<Page>, cursor: Option<Cursor>): Option<Cursor> {
    if pages == [] then cursor else pages[|pages| - 1].next
  }

  /** One page per table, each read from where the one before ended. */
  ghost predicate Follows(tables: seq<set<Row>>, cursor: Option<Cursor>, limit: nat, pages: seq<Page>) {
    && |pages| == |tables|
    && (pages != [] ==>
          var n := |pages| - 1;
          && Follows(tables[..n], cursor, limit, pages[..n])
          && (n > 0 ==> End(pages[..n], cursor).Some?)
          && IsPage(tables[n], End(pages[..n], cursor), limit, pages[n]))
  }

  ghost function Items(pages: seq<Page>): seq<Row> {
    if pages == [] then [] else Items(pages[..|pages| - 1]) + pages[|pages| - 1].items
  }

  /** What a cursor lets through lies below the row it was made from. */
  lemma VisibleBelow(row: Row, last: Row)
    requires Visible(row, Some(CursorOf(last)))
    ensures Before(row, last)
  {}

  /** The cursor after some rows is that of the last of them, and all of them were let in by the first. */
  ghost predicate Reached(rows: seq<Row>, cursor: Option<Cursor>, end: Option<Cursor>) {
    && Descending(rows)
    && (forall r :: r in rows ==> Visible(r, cursor))
    && (end.Some? ==> rows != [] && end == Some(CursorOf(rows[|rows| - 1])))
  }

  lemma FirstPage(table: set<Row>, cursor: Option<Cursor>, limit: nat, page: Page)
    requires IsPage(table, cursor, limit, page)
    ensures Reached(page.items, cursor, page.next)
  {}

  /** A page from where some rows ended extends them. */
  lemma NextPage(before: seq<Row>, cursor: Option<Cursor>, end: Option<Cursor>, page: Page)
    requires Reached(before, cursor, end) && end.Some? && Reached(page.items, end, page.next)
    ensures Reached(before + page.items, cursor, page.next)
  {
    var last := before[|before| - 1];
    assert last in before;
    forall j | 0 <= j < |page.items| ensures Before(page.items[j], last) && Visible(page.items[j], cursor) {
      assert page.items[j] in page.items;
      VisibleBelow(page.items[j], last);
    }
    DescendingAppend(before, page.items);
    forall r | r in page.items ensures Visible(r, cursor) {
      var j :| 0 <= j < |page.items| && page.items[j] == r;
    }
  }

  lemma DescendingAppend(a: seq<Row>, b: seq<Row>)
    requires Descending(a) && Descending(b) && a != []
    requires forall j :: 0 <= j < |b| ==> Before(b[j], a[|a| - 1])
    ensures Descending(a + b)
  {
    forall i, j | 0 <= i < |a| && 0 <= j < |b| ensures Before(b[j], a[i]) {
      assert i < |a| - 1 ==> Before(a[|a| - 1], a[i]);
    }
  }

  /** The rows come in strictly descending order across all pages, so none is returned twice, however the table
      changes in between. */
  lemma {:induction false} ItemsDescend(tables: seq<set<Row>>, cursor: Option<Cursor>, limit: nat, pages: seq<Page>)
    requires Follows(tables, cursor, limit, pages)
    ensures Descending(Items(pages))
    ensures pages != [] ==> Reached(Items(pages), cursor, End(pages, cursor))
  {
    if pages != [] {
      var n := |pages| - 1;
      FirstPage(tables[n], End(pages[..n], cursor), limit, pages[n]);
      ItemsDescend(tables[..n], cursor, limit, pages[..n]);
      if n > 0 {
        NextPage(Items(pages[..n]), cursor, End(pages[..n], cursor), pages[n]);
      } else {
        assert Items(pages) == pages[0].items;
      }
    }
  }

  lemma {:induction false} DescendingDistinct(rows: seq<Row>, all: set<Row>)
    requires Descending(rows) && forall r :: r in rows ==> r in all
    ensures |rows| <= |all|
  {
    if rows != [] {
      var init, last := rows[..|rows| - 1], rows[|rows| - 1];
      assert last in rows;
      forall r | r in init ensures r in all - {last} {
        var k :| 0 <= k < |init| && init[k] == r;
        assert Before(rows[|rows| - 1], rows[k]);
      }
      DescendingDistinct(init, all - {last});
    }
  }

  lemma {:induction false} ItemsCount(tables: seq<set<Row>>, cursor: Option<Cursor>, limit: nat, pages: seq<Page>)
    requires Follows(tables, cursor, limit, pages) && pages != []
    ensures |Items(pages)| == (|pages| - 1) * limit + |pages[|pages| - 1].items|
  {
    var n := |pages| - 1;
    if n == 0 {
      assert Items(pages[..0]) == [];
    } else {
      ItemsCount(tables[..n], cursor, limit, pages[..n]);
      OneMore(n - 1, limit);
    }
  }

  lemma OneMore(k: nat, limit: nat)
    ensures (k + 1) * limit == k * limit + limit
  {}

  /** Following cursors ends: when only the rows of a finite set can ever be seen below the first cursor, all but the
      last page fit into it. */
  lemma FollowingEnds(tables: seq<set<Row>>, cursor: Option<Cursor>, limit: nat, pages: seq<Page>, all: set<Row>)
    requires Follows(tables, cursor, limit, pages) && pages != []
    requires forall k, r :: 0 <= k < |tables| && r in tables[k] && Visible(r, cursor) ==> r in all
    ensures (|pages| - 1) * limit <= |all|
  {
    ItemsDescend(tables, cursor, limit, pages);
    ItemsCount(tables, cursor, limit, pages);
    ItemsSeen(tables, cursor, limit, pages, all);
    DescendingDistinct(Items(pages), all);
  }

  lemma {:induction false} ItemsSeen(tables: seq<set<Row>>, cursor: Option<Cursor>, limit: nat, pages: seq<Page>, all: set<Row>)
    requires Follows(tables, cursor, limit, pages)
    requires forall k, r :: 0 <= k < |tables| && r in tables[k] && Visible(r, cursor) ==> r in all
    ensures forall r :: r in Items(pages) ==> r in all
  {
    if pages != [] {
      var n := |pages| - 1;
      ItemsSeen(tables[..n], cursor, limit, pages[..n], all);
      ItemsDescend(tables, cursor, limit, pages);
      forall r | r in pages[n].items ensures r in all {
        assert r in Items(pages) && r in tables[n];
      }
    }
  }

  // ---------------------------------------------------------------- completeness

  /** The row lies below the page but within the part of its last millisecond that the cursor cuts off. */
  predicate Skips(page: Page, row: Row) {
    page.next.Some? && page.items != [] && Before(row, page.items[|page.items| - 1]) && !Visible(row, page.next)
  }

  ghost predicate NotSkipped(row: Row, pages: seq<Page>) {
    pages == [] || (NotSkipped(row, pages[..|pages| - 1]) && !Skips(pages[|pages| - 1], row))
  }

  /** A row that matches throughout is returned, or still to come, when it is not skipped. */
  lemma {:induction false} RowReturned(tables: seq<set<Row>>, cursor: Option<Cursor>, limit: nat, pages: seq<Page>, row: Row)
    requires Follows(tables, cursor, limit, pages) && NotSkipped(row, pages)
    requires (forall k :: 0 <= k < |tables| ==> row in tables[k]) && Visible(row, cursor)
    ensures row in Items(pages) || (Visible(row, End(pages, cursor)) && (pages == [] || End(pages, cursor).Some?))
  {
    if pages != [] {
      var n := |pages| - 1;
      RowReturned(tables[..n], cursor, limit, pages[..n], row);
      if row !in Items(pages[..n]) {
        OnThisPage(tables[n], End(pages[..n], cursor), limit, pages[n], row);
      }
    }
  }

  lemma OnThisPage(table: set<Row>, cursor: Option<Cursor>, limit: nat, page: Page, row: Row)
    requires IsPage(table, cursor, limit, page) && row in table && Visible(row, cursor) && !Skips(page, row)
    ensures row in page.items || (page.next.Some? && Visible(row, page.next))
  {}

  /** What the end of a run lets through none of its pages skipped. */
  lemma {:induction false} VisibleNotSkipped(tables: seq<set<Row>>, cursor: Option<Cursor>, limit: nat, pages: seq<Page>, row: Row)
    requires Follows(tables, cursor, limit, pages) && (pages == [] || End(pages, cursor).Some?)
    requires Visible(row, End(pages, cursor))
    ensures NotSkipped(row, pages)
  {
    if pages != [] {
      var n := |pages| - 1;
      EarlierVisible(tables[n], End(pages[..n], cursor), limit, pages[n], row);
      VisibleNotSkipped(tables[..n], cursor, limit, pages[..n], row);
    }
  }

  /** What a page's cursor lets through, the cursor it was read from let through too. */
  lemma EarlierVisible(table: set<Row>, cursor: Option<Cursor>, limit: nat, page: Page, row: Row)
    requires IsPage(table, cursor, limit, page) && page.next.Some? && Visible(row, page.next)
    ensures Visible(row, cursor)
  {
    var last := page.items[limit - 1];
    VisibleBelow(row, last);
    assert last in page.items;
  }

  /** A returned row was skipped by no page. */
  lemma {:induction false} ReturnedNotSkipped(tables: seq<set<Row>>, cursor: Option<Cursor>, limit: nat, pages: seq<Page>, row: Row)
    requires Follows(tables, cursor, limit, pages) && row in Items(pages)
    ensures NotSkipped(row, pages)
  {
    var n := |pages| - 1;
    ItemsDescend(tables, cursor, limit, pages);
    NotBelowLast(tables[n], End(pages[..n], cursor), limit, pages[n], Items(pages[..n]), row);
    if row in Items(pages[..n]) {
      ReturnedNotSkipped(tables[..n], cursor, limit, pages[..n], row);
    } else {
      assert row in pages[n].items;
      VisibleNotSkipped(tables[..n], cursor, limit, pages[..n], row);
    }
  }

  lemma NotBelowLast(table: set<Row>, cursor: Option<Cursor>, limit: nat, page: Page, before: seq<Row>, row: Row)
    requires IsPage(table, cursor, limit, page) && Descending(before + page.items) && row in before + page.items
    ensures !Skips(page, row)
  {
    var rows := before + page.items;
    var i :| 0 <= i < |rows| && rows[i] == row;
    if page.items != [] {
      assert rows[|rows| - 1] == page.items[|page.items| - 1];
      assert i < |rows| - 1 ==> Before(rows[|rows| - 1], rows[i]);
    }
  }

  /** Followed to the end, the pages hold a row that was there throughout exactly when no cursor skipped it. */
  lemma ReturnedExactly(tables: seq<set<Row>>, cursor: Option<Cursor>, limit: nat, pages: seq<Page>, row: Row)
    requires Follows(tables, cursor, limit, pages) && pages != [] && End(pages, cursor).None?
    requires (forall k :: 0 <= k < |tables| ==> row in tables[k]) && Visible(row, cursor)
    ensures row in Items(pages) <==> NotSkipped(row, pages)
  {
    if NotSkipped(row, pages) {
      RowReturned(tables, cursor, limit, pages, row);
    } else if row in Items(pages) {
      ReturnedNotSkipped(tables, cursor, limit, pages, row);
    }
  }

  // ---------------------------------------------------------------- what the table alone decides

  /** The row comes after `last`, but the cursor made from `last` hides it. */
  predicate Hides(last: Row, row: Row) {
    Before(row, last) && !Visible(row, Some(CursorOf(last)))
  }

  /** Only a row of the same millisecond can be hidden, and at its very start only one whose id is not smaller. */
  lemma HidesExactly(last: Row, row: Row)
    ensures Hides(last, row) <==>
      Before(row, last) && row.time / 1000 == last.time / 1000 && (row.time % 1000 > 0 || row.id >= last.id)
  {}

  /** No row of the table hides another that the query is to return. */
  ghost predicate Gapless(table: set<Row>, cursor: Option<Cursor>) {
    forall l, r :: l in table && r in table && Visible(l, cursor) && Visible(r, cursor) ==> !Hides(l, r)
  }

  lemma WholeMillisecondsGapless(table: set<Row>, cursor: Option<Cursor>)
    requires forall r :: r in table ==> r.time % 1000 == 0
    ensures Gapless(table, cursor)
  {
    forall l, r | l in table && r in table ensures !Hides(l, r) {
      HidesExactly(l, r);
    }
  }

  lemma LastVisible(tables: seq<set<Row>>, cursor: Option<Cursor>, limit: nat, pages: seq<Page>)
    requires Follows(tables, cursor, limit, pages) && pages != [] && End(pages, cursor).Some?
    ensures var items := pages[|pages| - 1].items;
      |items| == limit >= 1 && items[limit - 1] in tables[|tables| - 1] && Visible(items[limit - 1], cursor)
  {
    var page := pages[|pages| - 1];
    ItemsDescend(tables, cursor, limit, pages);
    assert page.items[limit - 1] in page.items && page.items[limit - 1] in Items(pages);
  }

  lemma {:induction false} UnhiddenNotSkipped(tables: seq<set<Row>>, cursor: Option<Cursor>, limit: nat, pages: seq<Page>, row: Row)
    requires Follows(tables, cursor, limit, pages)
    requires forall k, l :: 0 <= k < |tables| && l in tables[k] && Visible(l, cursor) ==> !Hides(l, row)
    ensures NotSkipped(row, pages)
  {
    if pages != [] {
      var n := |pages| - 1;
      UnhiddenNotSkipped(tables[..n], cursor, limit, pages[..n], row);
      if pages[n].next.Some? {
        LastVisible(tables, cursor, limit, pages);
        assert !Hides(pages[n].items[limit - 1], row);
      }
    }
  }

  /** A row that was there throughout, and that no row met on the way hides, is returned, whatever else changes. */
  lemma FollowedComplete(tables: seq<set<Row>>, cursor: Option<Cursor>, limit: nat, pages: seq<Page>, row: Row)
    requires Follows(tables, cursor, limit, pages) && pages != [] && End(pages, cursor).None?
    requires (forall k :: 0 <= k < |tables| ==> row in tables[k]) && Visible(row, cursor)
    requires forall k, l :: 0 <= k < |tables| && l in tables[k] && Visible(l, cursor) ==> !Hides(l, row)
    ensures row in Items(pages)
  {
    UnhiddenNotSkipped(tables, cursor, limit, pages, row);
    ReturnedExactly(tables, cursor, limit, pages, row);
  }

  /** The cursors followed to the end on a table that stays as it is. */
  ghost predicate Complete(table: set<Row>, cursor: Option<Cursor>, limit: nat, pages: seq<Page>) {
    pages != [] && Follows(seq(|pages|, _ => table), cursor, limit, pages) && End(pages, cursor).None?
  }

  ghost predicate ReturnsAll(table: set<Row>, cursor: Option<Cursor>, pages: seq<Page>) {
    forall r :: r in table && Visible(r, cursor) ==> r in Items(pages)
  }

  /** Without gaps the pages concatenate to the sorted, filtered table. */
  lemma StaticTable(table: set<Row>, cursor: Option<Cursor>, limit: nat, pages: seq<Page>)
    requires Complete(table, cursor, limit, pages) && Gapless(table, cursor)
    ensures Descending(Items(pages))
    ensures forall r :: r in Items(pages) <==> r in table && Visible(r, cursor)
  {
    var tables := seq(|pages|, _ => table);
    ItemsDescend(tables, cursor, limit, pages);
    ItemsSeen(tables, cursor, limit, pages, set r | r in table && Visible(r, cursor));
    forall r | r in table && Visible(r, cursor) ensures r in Items(pages) {
      FollowedComplete(tables, cursor, limit, pages, r);
    }
  }

  // ---------------------------------------------------------------- runs that reach the end

  lemma {:induction false} Largest(rows: set<Row>) returns (m: Row)
    requires rows != {}
    ensures m in rows && forall r :: r in rows ==> r == m || Before(r, m)
  {
    var x :| x in rows;
    if rows == {x} {
      m := x;
    } else {
      var rest := rows - {x};
      assert rows == rest + {x};
      m := Largest(rest);
      if Before(m, x) {
        m := x;
      }
    }
  }

  lemma {:induction false} SortedRows(rows: set<Row>) returns (sorted: seq<Row>)
    ensures Descending(sorted) && forall r :: r in sorted <==> r in rows
  {
    if rows == {} {
      sorted := [];
    } else {
      var m := Largest(rows);
      var rest := SortedRows(rows - {m});
      sorted := [m] + rest;
      forall j | 0 <= j < |rest| ensures Before(rest[j], m) {
        assert rest[j] in rest;
      }
    }
  }

  lemma PageExists(table: set<Row>, cursor: Option<Cursor>, limit: nat) returns (page: Page)
    requires limit >= 1
    ensures IsPage(table, cursor, limit, page)
  {
    var sorted := SortedRows(set r | r in table && Visible(r, cursor));
    CutIsPage(table, cursor, limit, sorted);
    page := Cut(sorted, limit);
  }

  lemma FollowsSnoc(table: set<Row>, cursor: Option<Cursor>, limit: nat, pages: seq<Page>, page: Page)
    requires Follows(seq(|pages|, _ => table), cursor, limit, pages)
    requires pages == [] || End(pages, cursor).Some?
    requires IsPage(table, End(pages, cursor), limit, page)
    ensures Follows(seq(|pages + [page]|, _ => table), cursor, limit, pages + [page])
  {
    var n := |pages|;
    assert (pages + [page])[..n] == pages;
    assert seq(n + 1, _ => table)[..n] == seq(n, _ => table);
  }

  ghost function Remaining(table: set<Row>, cursor: Option<Cursor>): set<Row> {
    set r | r in table && Visible(r, cursor)
  }

  lemma Shrinks(small: set<Row>, large: set<Row>, x: Row)
    requires small <= large && x in large && x !in small
    ensures |small| < |large|
  {
    Included(small, large - {x});
  }

  lemma {:induction false} Included(small: set<Row>, large: set<Row>)
    requires small <= large
    ensures |small| <= |large|
  {
    if small != {} {
      var y :| y in small;
      Included(small - {y}, large - {y});
    }
  }

  /** A page with a successor leaves strictly fewer rows to see. */
  lemma PageAdvances(table: set<Row>, cursor: Option<Cursor>, limit: nat, page: Page)
    requires IsPage(table, cursor, limit, page) && page.next.Some?
    ensures |Remaining(table, page.next)| < |Remaining(table, cursor)|
  {
    var last := page.items[limit - 1];
    assert last in page.items;
    if Visible(last, page.next) {
      VisibleBelow(last, last);
    }
    forall r | r in Remaining(table, page.next) ensures r in Remaining(table, cursor) {
      EarlierVisible(table, cursor, limit, page, r);
    }
    Shrinks(Remaining(table, page.next), Remaining(table, cursor), last);
  }

  /** On a static table following the cursors reaches the end, whatever the page size. */
  lemma {:induction false} ReachesEnd(table: set<Row>, cursor: Option<Cursor>, limit: nat, pages: seq<Page>) returns (all: seq<Page>)
    requires limit >= 1 && Follows(seq(|pages|, _ => table), cursor, limit, pages)
    requires pages == [] || End(pages, cursor).Some?
    ensures Complete(table, cursor, limit, all)
    decreases |Remaining(table, End(pages, cursor))|
  {
    var page := PageExists(table, End(pages, cursor), limit);
    FollowsSnoc(table, cursor, limit, pages, page);
    all := pages + [page];
    if page.next.Some? {
      PageAdvances(table, End(pages, cursor), limit, page);
      all := ReachesEnd(table, cursor, limit, all);
    }
  }

  /** The page of one row that ends with `l` keeps out everything that `l` hides. */
  lemma {:induction false} SingleRowsHide(table: set<Row>, cursor: Option<Cursor>, pages: seq<Page>, l: Row, r: Row)
    requires Follows(seq(|pages|, _ => table), cursor, 1, pages) && Hides(l, r) && l in Items(pages)
    ensures r !in Items(pages)
  {
    var n := |pages| - 1;
    var tables := seq(|pages|, _ => table);
    assert tables[..n] == seq(n, _ => table);
    ItemsDescend(tables, cursor, 1, pages);
    if l in Items(pages[..n]) {
      SingleRowsHide(table, cursor, pages[..n], l, r);
      if r in pages[n].items {
        HiddenNotVisible(seq(n, _ => table), cursor, pages[..n], l, r);
      }
    } else {
      assert l in pages[n].items && pages[n].items == [l];
      LastIsLowest(Items(pages), Items(pages[..n]), l, r);
    }
  }

  lemma LastIsLowest(rows: seq<Row>, before: seq<Row>, l: Row, r: Row)
    requires rows == before + [l] && Descending(rows) && Before(r, l)
    ensures r !in rows
  {
    forall i | 0 <= i < |rows| ensures rows[i] != r {
      if i < |rows| - 1 {
        assert Before(rows[|rows| - 1], rows[i]);
      }
    }
  }

  /** What was hidden stays hidden. */
  lemma {:induction false} HiddenNotVisible(tables: seq<set<Row>>, cursor: Option<Cursor>, pages: seq<Page>, l: Row, r: Row)
    requires Follows(tables, cursor, 1, pages) && Hides(l, r) && l in Items(pages) && End(pages, cursor).Some?
    ensures !Visible(r, End(pages, cursor))
  {
    var n := |pages| - 1;
    if Visible(r, End(pages, cursor)) {
      EarlierVisible(tables[n], End(pages[..n], cursor), 1, pages[n], r);
      if l in Items(pages[..n]) {
        HiddenNotVisible(tables[..n], cursor, pages[..n], l, r);
      }
    }
  }

  /** Following the cursors returns every row, for every page size the API takes, exactly when the table has no gap. */
  lemma AlwaysCompleteExactly(table: set<Row>, cursor: Option<Cursor>)
    ensures Gapless(table, cursor) <==> AlwaysComplete(table, cursor)
  {
    if Gapless(table, cursor) {
      forall limit: nat, pages | 1 <= limit <= MAXIMUM_PAGE_SIZE && Complete(table, cursor, limit, pages)
        ensures ReturnsAll(table, cursor, pages)
      {
        StaticTable(table, cursor, limit, pages);
      }
    } else {
      var l, r :| l in table && r in table && Visible(l, cursor) && Visible(r, cursor) && Hides(l, r);
      var pages := ReachesEnd(table, cursor, 1, []);
      if l in Items(pages) {
        SingleRowsHide(table, cursor, pages, l, r);
      }
      assert !ReturnsAll(table, cursor, pages);
    }
  }

  ghost predicate AlwaysComplete(table: set<Row>, cursor: Option<Cursor>) {
    forall limit: nat, pages :: 1 <= limit <= MAXIMUM_PAGE_SIZE && Complete(table, cursor, limit, pages) ==>
      ReturnsAll(table, cursor, pages)
  }

  /** With times inside a millisecond a row can be lost: of these two the second is on no page when pages hold one row.
      Such times are what the column default writes: no repository passes a createdAt, and CURRENT_TIMESTAMP keeps
      microseconds in a TIMESTAMPTZ(6). */
  lemma SubMillisecondLoss()
    ensures var newer, older := Row(1500, 1), Row(1200, 2);
      !AlwaysComplete({newer, older}, None)
      && forall pages :: Complete({newer, older}, None, 1, pages) && newer in Items(pages) ==> older !in Items(pages)
  {
    var newer, older := Row(1500, 1), Row(1200, 2);
    assert Hides(newer, older);
    AlwaysCompleteExactly({newer, older}, None);
    forall pages | Complete({newer, older}, None, 1, pages) && newer in Items(pages) ensures older !in Items(pages) {
      SingleRowsHide({newer, older}, None, pages, newer, older);
    }
  }
}
