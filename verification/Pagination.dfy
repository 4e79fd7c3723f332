/** Keyset pagination against the plain sorted list: on a fixed table the pages
    are the list, cut up; on a changing table no stable row is lost or doubled. */
module Pagination {
  import opened Options
  import opened IndexTables

  /** The primary key. */
  ghost predicate DistinctIds(rows: set<Row>) {
    forall r, s :: r in rows && s in rows && r.id == s.id ==> r == s
  }

  /** The sort is a strict total order on rows with different ids. */
  lemma TotalOrder(sort: Sort, r: Row, s: Row, t: Row)
    ensures r.id != s.id ==> Precedes(sort, r, s) || Precedes(sort, s, r)
    ensures !(Precedes(sort, r, s) && Precedes(sort, s, r))
    ensures Precedes(sort, r, s) && Precedes(sort, s, t) ==> Precedes(sort, r, t)
  {
  }

  lemma {:induction false} FirstExists(sort: Sort, rows: set<Row>)
    requires rows != {} && DistinctIds(rows)
    ensures exists r :: r in rows && forall s :: s in rows ==> s == r || Precedes(sort, r, s)
  {
    var x :| x in rows;
    if rows == {x} {
      assert forall s :: s in rows ==> s == x || Precedes(sort, x, s);
    } else {
      FirstExists(sort, rows - {x});
      var r :| r in rows - {x} && forall s :: s in rows - {x} ==> s == r || Precedes(sort, r, s);
      assert r.id != x.id;
      var first := if Precedes(sort, r, x) then r else x;
      forall s | s in rows ensures s == first || Precedes(sort, first, s) {
        TotalOrder(sort, first, r, s);
        TotalOrder(sort, r, x, s);
      }
    }
  }

  function First(sort: Sort, rows: set<Row>): (r: Row)
    requires rows != {} && DistinctIds(rows)
    ensures r in rows && forall s :: s in rows ==> s == r || Precedes(sort, r, s)
  {
    FirstExists(sort, rows);
    var r :| r in rows && forall s :: s in rows ==> s == r || Precedes(sort, r, s);
    r
  }

  /** ORDER BY: all rows in the order of the sort. */
  function Sorted(sort: Sort, rows: set<Row>): (list: seq<Row>)
    requires DistinctIds(rows)
    ensures |list| == |rows|
    decreases |rows|
  {
    if rows == {} then []
    else
      var r := First(sort, rows);
      [r] + Sorted(sort, rows - {r})
  }

  /** The list has every row once, each strictly before the next ones. */
  lemma {:induction false} SortedIsTheList(sort: Sort, rows: set<Row>)
    requires DistinctIds(rows)
    ensures forall r :: r in rows <==> r in Sorted(sort, rows)
    ensures forall i, j :: 0 <= i < j < |Sorted(sort, rows)| ==>
              Precedes(sort, Sorted(sort, rows)[i], Sorted(sort, rows)[j])
    decreases |rows|
  {
    if rows == {} {
    } else {
      var r := First(sort, rows);
      SortedIsTheList(sort, rows - {r});
      var rest := Sorted(sort, rows - {r});
      assert Sorted(sort, rows) == [r] + rest;
      forall s ensures s in rows <==> s in [r] + rest {
        assert s in rows <==> s == r || s in rows - {r};
      }
    }
  }

  /** Every open row's packed key stays below every closed row's. */
  ghost predicate AllKeysApart(rows: set<Row>) {
    forall r, s :: r in rows && s in rows && r.status.Open? && !s.status.Open? ==> KeysApart(r, s)
  }

  ghost predicate ListedAsMeant(list: seq<Row>) {
    forall i, j :: 0 <= i < j < |list| ==> ClosesSooner(list[i], list[j])
  }

  lemma MeantIfApart(rows: set<Row>, i: nat, j: nat)
    requires DistinctIds(rows) && i < j < |Sorted(ClosingSoonest, rows)| && AllKeysApart(rows)
    ensures ClosesSooner(Sorted(ClosingSoonest, rows)[i], Sorted(ClosingSoonest, rows)[j])
  {
    SortedIsTheList(ClosingSoonest, rows);
    var r, s := Sorted(ClosingSoonest, rows)[i], Sorted(ClosingSoonest, rows)[j];
    assert Precedes(ClosingSoonest, r, s);
    PackedKeyOrders(r, s);
  }

  lemma ApartIfMeant(rows: set<Row>, r: Row, s: Row)
    requires DistinctIds(rows) && ListedAsMeant(Sorted(ClosingSoonest, rows))
    requires r in rows && s in rows && r.status.Open? && !s.status.Open?
    ensures KeysApart(r, s)
  {
    var list := Sorted(ClosingSoonest, rows);
    SortedIsTheList(ClosingSoonest, rows);
    var i, j :| 0 <= i < |list| && list[i] == r && 0 <= j < |list| && list[j] == s;
    assert i < j || j < i;
    PackedKeyOrders(r, s);
  }

  /** The closing-soonest list of a whole table is as meant (open rows first,
      then by deadline, then by id) if and only if all keys stay apart. */
  lemma ClosingSoonestAsMeant(rows: set<Row>)
    requires DistinctIds(rows)
    ensures ListedAsMeant(Sorted(ClosingSoonest, rows)) <==> AllKeysApart(rows)
  {
    var list := Sorted(ClosingSoonest, rows);
    if ListedAsMeant(list) {
      forall r, s | r in rows && s in rows && r.status.Open? && !s.status.Open? ensures KeysApart(r, s) {
        ApartIfMeant(rows, r, s);
      }
    } else if AllKeysApart(rows) {
      forall i, j | 0 <= i < j < |list| ensures ClosesSooner(list[i], list[j]) {
        MeantIfApart(rows, i, j);
      }
    }
  }

  /** WHERE key is after the cursor. */
  function After(sort: Sort, rows: set<Row>, cursor: Option<Cursor>): (rest: set<Row>)
    ensures rest <= rows
  {
    set r | r in rows && (cursor.None? || Before(sort, cursor.value, CursorOf(r, sort)))
  }

  lemma AfterFirst(sort: Sort, rows: set<Row>)
    requires DistinctIds(rows) && rows != {}
    ensures After(sort, rows, Some(CursorOf(First(sort, rows), sort))) == rows - {First(sort, rows)}
  {
    var r := First(sort, rows);
    TotalOrder(sort, r, r, r);
    assert forall s :: s in rows && s != r ==> Precedes(sort, r, s);
  }

  lemma AfterSkipsFirst(sort: Sort, rows: set<Row>, cut: Row)
    requires DistinctIds(rows) && cut in rows && cut != First(sort, rows)
    ensures After(sort, rows, Some(CursorOf(cut, sort)))
         == After(sort, rows - {First(sort, rows)}, Some(CursorOf(cut, sort)))
  {
    TotalOrder(sort, First(sort, rows), cut, cut);
  }

  lemma ConsCut(r: Row, tail: seq<Row>, k: nat)
    requires 1 <= k <= |tail| + 1
    ensures ([r] + tail)[k..] == tail[k - 1..]
    ensures ([r] + tail)[k - 1] == if k == 1 then r else tail[k - 2]
  {
  }

  /** Cutting the list after k rows leaves the list of the rows after the cut. */
  lemma {:induction false} CutIsAfter(sort: Sort, rows: set<Row>, k: nat)
    requires DistinctIds(rows) && 1 <= k <= |rows|
    ensures Sorted(sort, rows)[k - 1] in rows
    ensures
      var cut := CursorOf(Sorted(sort, rows)[k - 1], sort);
      Sorted(sort, rows)[k..] == Sorted(sort, After(sort, rows, Some(cut)))
    decreases |rows|
  {
    var r := First(sort, rows);
    var rest := rows - {r};
    var tail := Sorted(sort, rest);
    assert Sorted(sort, rows) == [r] + tail;
    ConsCut(r, tail, k);
    if k == 1 {
      AfterFirst(sort, rows);
    } else {
      CutIsAfter(sort, rest, k - 1);
      AfterSkipsFirst(sort, rows, tail[k - 2]);
    }
  }

  /** One fetch: limit + 1 rows are read to see whether there are more. */
  datatype Page = Page(rows: seq<Row>, nextCursor: Option<Cursor>)

  function Fetch(sort: Sort, rows: set<Row>, cursor: Option<Cursor>, limit: nat): (page: Page)
    requires DistinctIds(rows) && limit >= 1
  {
    var list := Sorted(sort, After(sort, rows, cursor));
    var hasMore := |list| > limit;
    var pageRows := if hasMore then list[..limit] else list;
    Page(pageRows, if hasMore then Some(CursorOf(pageRows[limit - 1], sort)) else None)
  }

  lemma BeforeTransitive(sort: Sort, c: Cursor, d: Cursor, e: Cursor)
    ensures Before(sort, c, d) && Before(sort, d, e) ==> Before(sort, c, e)
    ensures !Before(sort, c, c)
  {
  }

  lemma AfterComposes(sort: Sort, rows: set<Row>, cursor: Option<Cursor>, last: Row)
    requires last in After(sort, rows, cursor)
    ensures
      var mine, next := After(sort, rows, cursor), Some(CursorOf(last, sort));
      After(sort, mine, next) == After(sort, rows, next) && |After(sort, rows, next)| < |mine|
  {
    var mine, next := After(sort, rows, cursor), CursorOf(last, sort);
    var rest := After(sort, rows, Some(next));
    forall r | r in rest ensures r in mine {
      if cursor.Some? {
        BeforeTransitive(sort, cursor.value, next, CursorOf(r, sort));
      }
    }
    BeforeTransitive(sort, next, next, next);
    assert last !in rest && rest < mine;
    SmallerSet(rest, mine);
  }

  lemma SmallerSet(a: set<Row>, b: set<Row>)
    requires a < b
    ensures |a| < |b|
  {
    assert b == a + (b - a);
    assert b - a != {};
  }

  lemma TakeAndDrop(list: seq<Row>, k: nat)
    requires k <= |list|
    ensures list == list[..k] + list[k..]
  {
  }

  /** Cutting after the k-th row leaves what its cursor selects. */
  lemma CutSplitsList(sort: Sort, rows: set<Row>, cursor: Option<Cursor>, k: nat)
    requires DistinctIds(rows) && 1 <= k <= |After(sort, rows, cursor)|
    ensures
      var list := Sorted(sort, After(sort, rows, cursor));
      var next := Some(CursorOf(list[k - 1], sort));
      && (cursor.Some? ==> Before(sort, cursor.value, next.value))
      && |After(sort, rows, next)| < |After(sort, rows, cursor)|
      && list == list[..k] + Sorted(sort, After(sort, rows, next))
  {
    var mine := After(sort, rows, cursor);
    CutIsAfter(sort, mine, k);
    AfterComposes(sort, rows, cursor, Sorted(sort, mine)[k - 1]);
    TakeAndDrop(Sorted(sort, mine), k);
  }

  /** A page ends where the next one starts. */
  lemma PageSplitsList(sort: Sort, rows: set<Row>, cursor: Option<Cursor>, limit: nat)
    requires DistinctIds(rows) && limit >= 1
    ensures
      var page := Fetch(sort, rows, cursor, limit);
      var list := Sorted(sort, After(sort, rows, cursor));
      if page.nextCursor.None? then page.rows == list
      else
        && |After(sort, rows, page.nextCursor)| < |After(sort, rows, cursor)|
        && list == page.rows + Sorted(sort, After(sort, rows, page.nextCursor))
        && (cursor.Some? ==> Before(sort, cursor.value, page.nextCursor.value))
  {
    var list := Sorted(sort, After(sort, rows, cursor));
    if |list| > limit {
      CutSplitsList(sort, rows, cursor, limit);
    }
  }

  /** Follow nextCursor until it is null and concatenate the pages. */
  function Walk(sort: Sort, rows: set<Row>, cursor: Option<Cursor>, limit: nat): seq<Row>
    requires DistinctIds(rows) && limit >= 1
    decreases |After(sort, rows, cursor)|
  {
    var page := Fetch(sort, rows, cursor, limit);
    PageSplitsList(sort, rows, cursor, limit);
    if page.nextCursor.None? then page.rows
    else page.rows + Walk(sort, rows, page.nextCursor, limit)
  }

  lemma {:induction false} WalkFrom(sort: Sort, rows: set<Row>, cursor: Option<Cursor>, limit: nat)
    requires DistinctIds(rows) && limit >= 1
    ensures Walk(sort, rows, cursor, limit) == Sorted(sort, After(sort, rows, cursor))
    decreases |After(sort, rows, cursor)|
  {
    PageSplitsList(sort, rows, cursor, limit);
    var page := Fetch(sort, rows, cursor, limit);
    if page.nextCursor.None? {
    } else {
      WalkFrom(sort, rows, page.nextCursor, limit);
    }
  }

  /** Pagination equals the sorted list, for every sort and every limit; the
      total count is its length. */
  lemma PaginationIsTheSortedList(sort: Sort, rows: set<Row>, limit: nat)
    requires DistinctIds(rows) && limit >= 1
    ensures Walk(sort, rows, None, limit) == Sorted(sort, rows)
    ensures |Walk(sort, rows, None, limit)| == |rows|
  {
    WalkFrom(sort, rows, None, limit);
    assert After(sort, rows, None) == rows;
  }

  // -------------------------------------------------- the orders, by fields

  /** Where closing-soonest puts a row: its deadline, and 10^13 more if it is not
      open. */
  function ClosingKey(r: Row): int {
    r.terms.commitDeadline + if r.status.Open? then 0 else 10_000_000_000_000
  }

  /** Newest: larger ids first.  Most bids: more filled slots first, then larger
      ids.  Closing soonest: smaller keys first, then smaller ids. */
  predicate ListedBefore(sort: Sort, r: Row, s: Row) {
    match sort
    case Newest => r.id > s.id
    case MostBids => r.filledSlots > s.filledSlots || (r.filledSlots == s.filledSlots && r.id > s.id)
    case ClosingSoonest => ClosingKey(r) < ClosingKey(s) || (ClosingKey(r) == ClosingKey(s) && r.id < s.id)
  }

  /** The same against the two numbers of a cursor. */
  predicate ListedAfterCursor(sort: Sort, c: Cursor, r: Row) {
    match sort
    case Newest => r.id < c.id
    case MostBids => r.filledSlots < c.sortValue || (r.filledSlots == c.sortValue && r.id < c.id)
    case ClosingSoonest => ClosingKey(r) > c.sortValue || (ClosingKey(r) == c.sortValue && r.id > c.id)
  }

  lemma OrderByFields(sort: Sort, c: Cursor, r: Row, s: Row)
    ensures Precedes(sort, r, s) <==> ListedBefore(sort, r, s)
    ensures Before(sort, c, CursorOf(r, sort)) <==> ListedAfterCursor(sort, c, r)
    ensures ListedAfterCursor(sort, CursorOf(r, sort), s) <==> ListedBefore(sort, r, s)
  {
  }

  /** Every listing runs in the order its sort stands for. */
  lemma ListingByFields(sort: Sort, rows: set<Row>)
    requires DistinctIds(rows)
    ensures forall i, j :: 0 <= i < j < |Sorted(sort, rows)| ==>
              ListedBefore(sort, Sorted(sort, rows)[i], Sorted(sort, rows)[j])
  {
    var list := Sorted(sort, rows);
    SortedIsTheList(sort, rows);
    forall i, j | 0 <= i < j < |list| ensures ListedBefore(sort, list[i], list[j]) {
      OrderByFields(sort, CursorOf(list[i], sort), list[i], list[j]);
    }
  }

  predicate Remaining(sort: Sort, rows: set<Row>, cursor: Option<Cursor>, r: Row) {
    r in rows && (cursor.None? || ListedAfterCursor(sort, cursor.value, r))
  }

  /** A page holds, in the order the sort stands for, the first rows of what the
      cursor leaves: no more than the limit, and fewer only if nothing is left. */
  ghost predicate FirstOf(sort: Sort, rows: set<Row>, cursor: Option<Cursor>, limit: nat, pageRows: seq<Row>) {
    && (forall i, j :: 0 <= i < j < |pageRows| ==> ListedBefore(sort, pageRows[i], pageRows[j]))
    && (forall r :: r in pageRows ==> Remaining(sort, rows, cursor, r))
    && |pageRows| <= limit
    && (forall r :: Remaining(sort, rows, cursor, r) && r !in pageRows ==>
          |pageRows| == limit && forall s :: s in pageRows ==> ListedBefore(sort, s, r))
  }

  /** There is a next cursor exactly when something is left, and it stands for the
      page's last row. */
  ghost predicate NextOf(sort: Sort, rows: set<Row>, cursor: Option<Cursor>, page: Page) {
    && (page.nextCursor.None? <==> forall r :: Remaining(sort, rows, cursor, r) ==> r in page.rows)
    && (page.nextCursor.Some? ==> page.rows != [])
    && (page.nextCursor.Some? ==>
          forall r :: ListedAfterCursor(sort, page.nextCursor.value, r)
                 <==> ListedBefore(sort, page.rows[|page.rows| - 1], r))
  }

  lemma AfterByFields(sort: Sort, rows: set<Row>, cursor: Option<Cursor>)
    ensures forall r :: r in After(sort, rows, cursor) <==> Remaining(sort, rows, cursor, r)
  {
    forall r ensures r in After(sort, rows, cursor) <==> Remaining(sort, rows, cursor, r) {
      if cursor.Some? {
        OrderByFields(sort, cursor.value, r, r);
      }
    }
  }

  lemma FetchByFields(sort: Sort, rows: set<Row>, cursor: Option<Cursor>, limit: nat)
    requires DistinctIds(rows) && limit >= 1
    ensures FirstOf(sort, rows, cursor, limit, Fetch(sort, rows, cursor, limit).rows)
  {
    var mine, pageRows := After(sort, rows, cursor), Fetch(sort, rows, cursor, limit).rows;
    var list := Sorted(sort, mine);
    AfterByFields(sort, rows, cursor);
    SortedIsTheList(sort, mine);
    ListingByFields(sort, mine);
    assert forall i :: 0 <= i < |pageRows| ==> pageRows[i] == list[i];
    forall r | r in list && r !in pageRows
      ensures |pageRows| == limit && forall s :: s in pageRows ==> ListedBefore(sort, s, r)
    {
      var k :| 0 <= k < |list| && list[k] == r;
      assert k < |pageRows| ==> pageRows[k] == r;
    }
  }

  lemma CursorByFields(sort: Sort, rows: set<Row>, cursor: Option<Cursor>, limit: nat)
    requires DistinctIds(rows) && limit >= 1
    ensures NextOf(sort, rows, cursor, Fetch(sort, rows, cursor, limit))
  {
    var mine, page := After(sort, rows, cursor), Fetch(sort, rows, cursor, limit);
    var list := Sorted(sort, mine);
    AfterByFields(sort, rows, cursor);
    SortedIsTheList(sort, mine);
    if page.nextCursor.Some? {
      FirstPart(sort, list, limit, limit);
      assert list[limit] in list;
      TotalOrder(sort, list[limit - 1], list[limit], list[limit]);
      forall r
        ensures ListedAfterCursor(sort, page.nextCursor.value, r)
           <==> ListedBefore(sort, page.rows[|page.rows| - 1], r)
      {
        OrderByFields(sort, page.nextCursor.value, page.rows[|page.rows| - 1], r);
      }
    }
  }

  // ------------------------------------------------------ while rows change

  ghost predicate StrictlySorted(sort: Sort, list: seq<Row>) {
    forall i, j :: 0 <= i < j < |list| ==> Precedes(sort, list[i], list[j])
  }

  /** In a strictly sorted list, the rows of the first part are those that do not
      come after its last one. */
  lemma FirstPart(sort: Sort, list: seq<Row>, limit: nat, i: nat)
    requires StrictlySorted(sort, list) && 1 <= limit < |list| && i < |list|
    ensures list[i] in list[..limit] <==> !Precedes(sort, list[limit - 1], list[i])
  {
    var r, last := list[i], list[limit - 1];
    TotalOrder(sort, r, last, r);
    TotalOrder(sort, r, r, r);
    if i < limit {
      assert list[..limit][i] == r;
    } else {
      assert forall k :: 0 <= k < limit ==> list[..limit][k] == list[k] && Precedes(sort, list[k], r);
    }
  }

  /** A row of the table is on the page exactly when it lies after the cursor
      and not after the next one. */
  lemma OnPage(sort: Sort, rows: set<Row>, cursor: Option<Cursor>, limit: nat, r: Row)
    requires DistinctIds(rows) && limit >= 1 && r in rows
    ensures
      var page := Fetch(sort, rows, cursor, limit);
      r in page.rows <==>
        && r in After(sort, rows, cursor)
        && (page.nextCursor.Some? ==> !Before(sort, page.nextCursor.value, CursorOf(r, sort)))
  {
    var mine := After(sort, rows, cursor);
    var list := Sorted(sort, mine);
    SortedIsTheList(sort, mine);
    if |list| > limit {
      if r in mine {
        var i :| 0 <= i < |list| && list[i] == r;
        FirstPart(sort, list, limit, i);
      } else {
        assert forall x :: x in list[..limit] ==> x in list;
      }
    }
  }

  /** Successive fetches, each on the table as it then is, each with the cursor
      the previous one returned. */
  ghost predicate Traversal(sort: Sort, limit: nat, tables: seq<set<Row>>, cursors: seq<Option<Cursor>>)
    requires limit >= 1
  {
    && |tables| > 0 && |cursors| == |tables| + 1 && cursors[0] == None
    && (forall i :: 0 <= i < |tables| ==>
          && DistinctIds(tables[i])
          && cursors[i + 1] == Fetch(sort, tables[i], cursors[i], limit).nextCursor)
    && (forall i :: 1 <= i < |tables| ==> cursors[i].Some?)
  }

  ghost predicate Shows(sort: Sort, limit: nat, tables: seq<set<Row>>, cursors: seq<Option<Cursor>>, i: nat, id: int)
    requires limit >= 1 && Traversal(sort, limit, tables, cursors) && i < |tables|
  {
    exists r :: r in Fetch(sort, tables[i], cursors[i], limit).rows && r.id == id
  }

  ghost predicate HasKey(sort: Sort, rows: set<Row>, key: Cursor) {
    exists r :: r in rows && CursorOf(r, sort) == key
  }

  /** The row keeps its sort key and its place in the filter throughout. */
  ghost predicate Stable(sort: Sort, tables: seq<set<Row>>, key: Cursor) {
    forall i :: 0 <= i < |tables| ==> HasKey(sort, tables[i], key)
  }

  lemma ShownWhen(sort: Sort, limit: nat, tables: seq<set<Row>>, cursors: seq<Option<Cursor>>, key: Cursor, i: nat)
    requires limit >= 1 && Traversal(sort, limit, tables, cursors) && Stable(sort, tables, key) && i < |tables|
    ensures Shows(sort, limit, tables, cursors, i, key.id) <==>
              && (cursors[i].Some? ==> Before(sort, cursors[i].value, key))
              && (cursors[i + 1].Some? ==> !Before(sort, cursors[i + 1].value, key))
  {
    assert HasKey(sort, tables[i], key);
    var r :| r in tables[i] && CursorOf(r, sort) == key;
    OnPage(sort, tables[i], cursors[i], limit, r);
    var mine := After(sort, tables[i], cursors[i]);
    SortedIsTheList(sort, mine);
    var page := Fetch(sort, tables[i], cursors[i], limit);
    if Shows(sort, limit, tables, cursors, i, key.id) {
      var s :| s in page.rows && s.id == key.id;
      assert s in Sorted(sort, mine);
      assert s == r;
    }
  }

  lemma CursorStep(sort: Sort, limit: nat, tables: seq<set<Row>>, cursors: seq<Option<Cursor>>, j: nat)
    requires limit >= 1 && Traversal(sort, limit, tables, cursors) && 2 <= j <= |tables| && cursors[j].Some?
    ensures cursors[j - 1].Some? && Before(sort, cursors[j - 1].value, cursors[j].value)
  {
    PageSplitsList(sort, tables[j - 1], cursors[j - 1], limit);
  }

  lemma {:induction false} CursorsAdvance(sort: Sort, limit: nat, tables: seq<set<Row>>,
                                          cursors: seq<Option<Cursor>>, i: nat, j: nat)
    requires limit >= 1 && Traversal(sort, limit, tables, cursors) && 1 <= i < j <= |tables|
    requires cursors[j].Some?
    ensures Before(sort, cursors[i].value, cursors[j].value)
    decreases j
  {
    CursorStep(sort, limit, tables, cursors, j);
    if i == j - 1 {
    } else {
      CursorsAdvance(sort, limit, tables, cursors, i, j - 1);
      BeforeTransitive(sort, cursors[i].value, cursors[j - 1].value, cursors[j].value);
    }
  }

  /** Pagination stability: however the rest of the table changes between the
      fetches, a stable row is never shown twice. */
  lemma StableRowOnce(sort: Sort, limit: nat, tables: seq<set<Row>>, cursors: seq<Option<Cursor>>, key: Cursor,
                      i: nat, j: nat)
    requires limit >= 1 && Traversal(sort, limit, tables, cursors) && Stable(sort, tables, key)
    requires i < j < |tables|
    ensures !(Shows(sort, limit, tables, cursors, i, key.id) && Shows(sort, limit, tables, cursors, j, key.id))
  {
    ShownWhen(sort, limit, tables, cursors, key, i);
    ShownWhen(sort, limit, tables, cursors, key, j);
    if i + 1 < j {
      CursorsAdvance(sort, limit, tables, cursors, i + 1, j);
    }
  }

  lemma {:induction false} PassedOrShown(sort: Sort, limit: nat, tables: seq<set<Row>>,
                                         cursors: seq<Option<Cursor>>, key: Cursor, n: nat)
    requires limit >= 1 && Traversal(sort, limit, tables, cursors) && Stable(sort, tables, key) && n <= |tables|
    requires cursors[n].None? ==> n == 0 || n == |tables|
    ensures
      || (exists i :: 0 <= i < n && Shows(sort, limit, tables, cursors, i, key.id))
      || (if cursors[n].Some? then Before(sort, cursors[n].value, key) else n == 0)
  {
    if n == 0 {
    } else {
      PassedOrShown(sort, limit, tables, cursors, key, n - 1);
      ShownWhen(sort, limit, tables, cursors, key, n - 1);
    }
  }

  /** And it is shown by every traversal that ends. */
  lemma StableRowShown(sort: Sort, limit: nat, tables: seq<set<Row>>, cursors: seq<Option<Cursor>>, key: Cursor)
    requires limit >= 1 && Traversal(sort, limit, tables, cursors) && Stable(sort, tables, key)
    requires cursors[|tables|] == None
    ensures exists i :: 0 <= i < |tables| && Shows(sort, limit, tables, cursors, i, key.id)
  {
    PassedOrShown(sort, limit, tables, cursors, key, |tables|);
  }
}
