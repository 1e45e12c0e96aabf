// Whole walks over cursor pages, on tables that change between pages and on one that does not.
module CursorWalk {
  import opened Wrappers
  import opened Pagination

  /** A client follows `next_cursor`; page `k` is answered from `tables[k]`, the table at that moment. */
  function Walk<T>(tables: seq<map<int, T>>, where: T -> bool, cursor: Option<string>, limit: nat)
    : seq<CursorPage<T>>
    requires 1 <= limit
  {
    if tables == [] then
      []
    else
      match PaginateCursor(tables[0], where, cursor, limit)
      case Err(_) => []
      case Ok(page) =>
        if page.nextCursor.None? then [page]
        else [page] + Walk(tables[1..], where, page.nextCursor, limit)
  }

  function Items<T>(pages: seq<CursorPage<T>>): seq<Row<T>> {
    if pages == [] then [] else pages[0].items + Items(pages[1..])
  }

  predicate Finished<T>(pages: seq<CursorPage<T>>) {
    pages != [] && pages[|pages| - 1].nextCursor.None?
  }

  ghost predicate HasId<T>(rows: seq<Row<T>>, id: int) {
    exists i :: 0 <= i < |rows| && rows[i].id == id
  }

  /** Every row of the list is in the table, with that data, and matches. */
  ghost predicate RowsOf<T>(rows: seq<Row<T>>, table: map<int, T>, where: T -> bool) {
    forall i :: 0 <= i < |rows| ==>
      rows[i].id in table && where(table[rows[i].id]) && rows[i].value == table[rows[i].id]
  }

  /** A row that matches in every table used for the first `n` pages. */
  ghost predicate PresentThroughout<T>(tables: seq<map<int, T>>, where: T -> bool, n: nat, id: int) {
    forall k :: 0 <= k < n && k < |tables| ==> id in tables[k] && where(tables[k][id])
  }

  // ---------- the same walk between ids ----------

  function IdWalk<T>(tables: seq<map<int, T>>, where: T -> bool, after: Option<int>, limit: nat): seq<IdPage<T>>
    requires 1 <= limit
  {
    if tables == [] then
      []
    else
      var page := PageAfter(tables[0], where, after, limit);
      if page.next.None? then [page] else [page] + IdWalk(tables[1..], where, page.next, limit)
  }

  function IdItems<T>(pages: seq<IdPage<T>>): seq<Row<T>> {
    if pages == [] then [] else pages[0].items + IdItems(pages[1..])
  }

  predicate IdFinished<T>(pages: seq<IdPage<T>>) {
    pages != [] && pages[|pages| - 1].next.None?
  }

  /** Cursor pages that say the same as pages between ids. */
  ghost predicate SamePages<T>(pages: seq<CursorPage<T>>, idPages: seq<IdPage<T>>) {
    |pages| == |idPages| && forall k :: 0 <= k < |pages| ==>
      pages[k].items == idPages[k].items && (pages[k].nextCursor.Some? <==> idPages[k].next.Some?)
  }

  lemma {:induction false} WalkDecoded<T>(tables: seq<map<int, T>>, where: T -> bool, cursor: Option<string>,
                                          limit: nat)
    requires 1 <= limit && ValidCursor(cursor)
    ensures SamePages(Walk(tables, where, cursor, limit), IdWalk(tables, where, After(cursor), limit))
  {
    if tables != [] {
      PaginateCursorDecoded(tables[0], where, cursor, limit);
      var page := PaginateCursor(tables[0], where, cursor, limit).value;
      var idPage := PageAfter(tables[0], where, After(cursor), limit);
      if page.nextCursor.Some? {
        WalkDecoded(tables[1..], where, page.nextCursor, limit);
        SamePagesCons(page, Walk(tables[1..], where, page.nextCursor, limit),
                      idPage, IdWalk(tables[1..], where, idPage.next, limit));
      }
    }
  }

  lemma SamePagesCons<T>(page: CursorPage<T>, rest: seq<CursorPage<T>>, idPage: IdPage<T>, idRest: seq<IdPage<T>>)
    requires page.items == idPage.items && (page.nextCursor.Some? <==> idPage.next.Some?) && SamePages(rest, idRest)
    ensures SamePages([page] + rest, [idPage] + idRest)
  {
  }

  lemma IdItemsCons<T>(page: IdPage<T>, rest: seq<IdPage<T>>)
    ensures IdItems([page] + rest) == page.items + IdItems(rest)
  {
    assert ([page] + rest)[1..] == rest;
  }

  lemma IdItemsOne<T>(page: IdPage<T>)
    ensures IdItems([page]) == page.items
  {
    assert IdItems([page]) == page.items + IdItems([]) == page.items;
  }

  lemma {:induction false} SameItems<T>(pages: seq<CursorPage<T>>, idPages: seq<IdPage<T>>)
    requires SamePages(pages, idPages)
    ensures Items(pages) == IdItems(idPages)
    ensures Finished(pages) <==> IdFinished(idPages)
  {
    if pages != [] {
      SameItems(pages[1..], idPages[1..]);
    }
  }

  /** A walk is its first page followed by the walk from that page on. */
  lemma IdWalkUnfold<T>(tables: seq<map<int, T>>, where: T -> bool, after: Option<int>, limit: nat)
    requires 1 <= limit && tables != []
    ensures
      var page := PageAfter(tables[0], where, after, limit);
      var pages := IdWalk(tables, where, after, limit);
      if page.next.None? then
        pages == [page] && IdItems(pages) == page.items
      else
        var rest := IdWalk(tables[1..], where, page.next, limit);
        && pages == [page] + rest && IdItems(pages) == page.items + IdItems(rest)
        && (IdFinished(pages) ==> IdFinished(rest))
  {
    var page := PageAfter(tables[0], where, after, limit);
    if page.next.None? {
      IdItemsOne(page);
    } else {
      IdItemsCons(page, IdWalk(tables[1..], where, page.next, limit));
    }
  }

  ghost predicate Above<T>(rows: seq<Row<T>>, after: Option<int>) {
    after.Some? ==> forall i :: 0 <= i < |rows| ==> after.value < rows[i].id
  }

  lemma AppendIncreasing<T>(a: seq<Row<T>>, b: seq<Row<T>>)
    requires Increasing(a) && Increasing(b)
    requires a != [] ==> Above(b, Some(a[|a| - 1].id))
    ensures Increasing(a + b)
  {
  }

  /** The page's rows: matching rows above the given id in increasing order. */
  lemma PageFacts<T>(table: map<int, T>, where: T -> bool, after: Option<int>, limit: nat)
    requires 1 <= limit
    ensures
      var page := PageAfter(table, where, after, limit);
      && Increasing(page.items) && Above(page.items, after) && RowsOf(page.items, table, where)
      && (page.next.Some? ==> page.items != [] && page.next.value == page.items[|page.items| - 1].id)
  {
    PageSplitsRemaining(table, where, after, limit);
    RowsSound(table, where, after);
    var remaining, page := Rows(table, where, after), PageAfter(table, where, after, limit);
    forall i | 0 <= i < |page.items|
      ensures page.items[i].id in MatchingIds(table, where, after) && page.items[i].value == table[page.items[i].id]
    {
      assert page.items[i] == remaining[i];
    }
  }

  lemma {:induction false} IdWalkIncreasing<T>(tables: seq<map<int, T>>, where: T -> bool, after: Option<int>,
                                               limit: nat)
    requires 1 <= limit
    ensures Increasing(IdItems(IdWalk(tables, where, after, limit)))
    ensures Above(IdItems(IdWalk(tables, where, after, limit)), after)
  {
    if tables != [] {
      PageFacts(tables[0], where, after, limit);
      IdWalkUnfold(tables, where, after, limit);
      var page := PageAfter(tables[0], where, after, limit);
      if page.next.Some? {
        var rest := IdWalk(tables[1..], where, page.next, limit);
        IdWalkIncreasing(tables[1..], where, page.next, limit);
        AppendIncreasing(page.items, IdItems(rest));
      }
    }
  }

  /** A row matching the page's table is on the page, or above the id the next page starts at. */
  lemma PageOrLater<T>(table: map<int, T>, where: T -> bool, after: Option<int>, limit: nat, id: int)
    requires 1 <= limit && id in MatchingIds(table, where, after)
    ensures
      var page := PageAfter(table, where, after, limit);
      HasId(page.items, id) || (page.next.Some? && page.next.value < id)
  {
    PageSplitsRemaining(table, where, after, limit);
    RowsComplete(table, where, after);
    RowsSound(table, where, after);
    var remaining, page := Rows(table, where, after), PageAfter(table, where, after, limit);
    var i :| 0 <= i < |remaining| && remaining[i] == Row(id, table[id]);
    if i < limit {
      assert page.items[i].id == id;
    } else {
      assert remaining[limit - 1].id < remaining[i].id;
    }
  }

  lemma HasIdAppend<T>(a: seq<Row<T>>, b: seq<Row<T>>, id: int)
    requires HasId(a, id) || HasId(b, id)
    ensures HasId(a + b, id)
  {
    if HasId(a, id) {
      var i :| 0 <= i < |a| && a[i].id == id;
      assert (a + b)[i].id == id;
    } else {
      var i :| 0 <= i < |b| && b[i].id == id;
      assert (a + b)[|a| + i].id == id;
    }
  }

  lemma {:induction false} IdWalkComplete<T>(tables: seq<map<int, T>>, where: T -> bool, after: Option<int>, limit: nat,
                                             id: int)
    requires 1 <= limit && IdFinished(IdWalk(tables, where, after, limit))
    requires PresentThroughout(tables, where, |IdWalk(tables, where, after, limit)|, id)
    requires after.Some? ==> after.value < id
    ensures HasId(IdItems(IdWalk(tables, where, after, limit)), id)
  {
    var page := PageAfter(tables[0], where, after, limit);
    IdWalkUnfold(tables, where, after, limit);
    PageOrLater(tables[0], where, after, limit, id);
    if page.next.Some? {
      var rest := IdWalk(tables[1..], where, page.next, limit);
      if !HasId(page.items, id) {
        LaterPages(tables, where, |rest| + 1, id);
        IdWalkComplete(tables[1..], where, page.next, limit, id);
      }
      HasIdAppend(page.items, IdItems(rest), id);
    }
  }

  lemma LaterPages<T>(tables: seq<map<int, T>>, where: T -> bool, n: nat, id: int)
    requires tables != [] && n > 0 && PresentThroughout(tables, where, n, id)
    ensures PresentThroughout(tables[1..], where, n - 1, id)
  {
    assert forall k :: 0 <= k < |tables[1..]| ==> tables[1..][k] == tables[k + 1];
  }

  // ---------- the walk's promises ----------

  /** Whatever happens to the table between pages, a walk returns strictly increasing ids, so no row comes twice. */
  lemma WalkIncreasing<T>(tables: seq<map<int, T>>, where: T -> bool, cursor: Option<string>, limit: nat)
    requires 1 <= limit && ValidCursor(cursor)
    ensures Increasing(Items(Walk(tables, where, cursor, limit)))
    ensures Above(Items(Walk(tables, where, cursor, limit)), After(cursor))
  {
    WalkDecoded(tables, where, cursor, limit);
    SameItems(Walk(tables, where, cursor, limit), IdWalk(tables, where, After(cursor), limit));
    IdWalkIncreasing(tables, where, After(cursor), limit);
  }

  /**
   * A finished walk has returned every row that matched in each table it used, even when the row a cursor
   * was made from was deleted in the meantime.
   */
  lemma WalkComplete<T>(tables: seq<map<int, T>>, where: T -> bool, cursor: Option<string>, limit: nat, id: int)
    requires 1 <= limit && ValidCursor(cursor)
    requires Finished(Walk(tables, where, cursor, limit))
    requires PresentThroughout(tables, where, |Walk(tables, where, cursor, limit)|, id)
    requires After(cursor).Some? ==> After(cursor).value < id
    ensures HasId(Items(Walk(tables, where, cursor, limit)), id)
  {
    WalkDecoded(tables, where, cursor, limit);
    SameItems(Walk(tables, where, cursor, limit), IdWalk(tables, where, After(cursor), limit));
    IdWalkComplete(tables, where, After(cursor), limit, id);
  }

  /** The two halves together: in a finished walk from the start, such a row occurs at exactly one position. */
  lemma WalkExactlyOnce<T>(tables: seq<map<int, T>>, where: T -> bool, limit: nat, id: int)
    requires 1 <= limit
    requires Finished(Walk(tables, where, None, limit))
    requires PresentThroughout(tables, where, |Walk(tables, where, None, limit)|, id)
    ensures
      var items := Items(Walk(tables, where, None, limit));
      && HasId(items, id)
      && forall i, j :: 0 <= i < |items| && 0 <= j < |items| && items[i].id == id == items[j].id ==> i == j
  {
    WalkComplete(tables, where, None, limit, id);
    WalkIncreasing(tables, where, None, limit);
    IncreasingIdsDistinct(Items(Walk(tables, where, None, limit)));
  }

  lemma IncreasingIdsDistinct<T>(rows: seq<Row<T>>)
    requires Increasing(rows)
    ensures forall i, j :: 0 <= i < |rows| && 0 <= j < |rows| && rows[i].id == rows[j].id ==> i == j
  {
  }

  lemma {:induction false} IdWalkSound<T>(tables: seq<map<int, T>>, where: T -> bool, after: Option<int>, limit: nat,
                                          k: nat)
    requires 1 <= limit && k < |IdWalk(tables, where, after, limit)| && k < |tables|
    ensures RowsOf(IdWalk(tables, where, after, limit)[k].items, tables[k], where)
  {
    PageFacts(tables[0], where, after, limit);
    IdWalkUnfold(tables, where, after, limit);
    if k > 0 {
      IdWalkSound(tables[1..], where, PageAfter(tables[0], where, after, limit).next, limit, k - 1);
    }
  }

  /** Nothing is invented: each row of page `k` matched in the table of that moment and carries its data. */
  lemma WalkSound<T>(tables: seq<map<int, T>>, where: T -> bool, cursor: Option<string>, limit: nat, k: nat)
    requires 1 <= limit && ValidCursor(cursor)
    requires k < |Walk(tables, where, cursor, limit)| && k < |tables|
    ensures RowsOf(Walk(tables, where, cursor, limit)[k].items, tables[k], where)
  {
    WalkDecoded(tables, where, cursor, limit);
    IdWalkSound(tables, where, After(cursor), limit, k);
  }

  // ---------- an unchanging table ----------

  /** All pages of a table that does not change; each page leaves fewer rows, so the walk ends. */
  function Drain<T>(table: map<int, T>, where: T -> bool, after: Option<int>, limit: nat): seq<IdPage<T>>
    requires 1 <= limit
    decreases |Rows(table, where, after)|
  {
    PageSplitsRemaining(table, where, after, limit);
    var page := PageAfter(table, where, after, limit);
    if page.next.None? then [page] else [page] + Drain(table, where, page.next, limit)
  }

  /** The number of pages for `n` rows: `max(1, ceil(n / limit))`. */
  function PageCount(n: nat, limit: nat): nat
    requires 1 <= limit
  {
    if n <= limit then 1 else 1 + PageCount(n - limit, limit)
  }

  lemma {:induction false} PageCountIsCeiling(n: nat, limit: nat)
    requires 1 <= limit
    ensures PageCount(n, limit) >= 1
    ensures n <= PageCount(n, limit) * limit
    ensures PageCount(n, limit) > 1 ==> (PageCount(n, limit) - 1) * limit < n
  {
    if n > limit {
      PageCountIsCeiling(n - limit, limit);
      var c := PageCount(n - limit, limit);
      assert (c + 1) * limit == c * limit + limit;
      assert c > 1 ==> c * limit == (c - 1) * limit + limit;
    }
  }

  lemma TakeDrop<X>(s: seq<X>, n: nat)
    requires n <= |s|
    ensures s == s[..n] + s[n..]
  {
  }

  lemma {:induction false} DrainItems<T>(table: map<int, T>, where: T -> bool, after: Option<int>, limit: nat)
    requires 1 <= limit
    ensures IdItems(Drain(table, where, after, limit)) == Rows(table, where, after)
    ensures IdFinished(Drain(table, where, after, limit))
    decreases |Rows(table, where, after)|
  {
    PageSplitsRemaining(table, where, after, limit);
    var page := PageAfter(table, where, after, limit);
    if page.next.None? {
      IdItemsOne(page);
    } else {
      DrainItems(table, where, page.next, limit);
      IdItemsCons(page, Drain(table, where, page.next, limit));
      TakeDrop(Rows(table, where, after), limit);
    }
  }

  lemma {:induction false} DrainLength<T>(table: map<int, T>, where: T -> bool, after: Option<int>, limit: nat)
    requires 1 <= limit
    ensures |Drain(table, where, after, limit)| == PageCount(|Rows(table, where, after)|, limit)
    decreases |Rows(table, where, after)|
  {
    PageSplitsRemaining(table, where, after, limit);
    var page := PageAfter(table, where, after, limit);
    if page.next.Some? {
      DrainLength(table, where, page.next, limit);
    }
  }

  lemma {:induction false} IdWalkOfUnchangingTable<T>(tables: seq<map<int, T>>, table: map<int, T>, where: T -> bool,
                                                      after: Option<int>, limit: nat)
    requires 1 <= limit
    requires forall k :: 0 <= k < |tables| ==> tables[k] == table
    requires |tables| >= PageCount(|Rows(table, where, after)|, limit)
    ensures IdWalk(tables, where, after, limit) == Drain(table, where, after, limit)
    decreases |tables|
  {
    PageCountIsCeiling(|Rows(table, where, after)|, limit);
    PageSplitsRemaining(table, where, after, limit);
    var page := PageAfter(table, where, after, limit);
    if page.next.Some? {
      IdWalkOfUnchangingTable(tables[1..], table, where, page.next, limit);
    }
  }

  /**
   * On an unchanging table a client sees the full ordered list, cut into exactly `max(1, ceil(n / limit))` pages,
   * and is then finished.
   */
  lemma WalkOfUnchangingTable<T>(tables: seq<map<int, T>>, table: map<int, T>, where: T -> bool,
                                 cursor: Option<string>, limit: nat)
    requires 1 <= limit && ValidCursor(cursor)
    requires forall k :: 0 <= k < |tables| ==> tables[k] == table
    requires |tables| >= PageCount(|Rows(table, where, After(cursor))|, limit)
    ensures Items(Walk(tables, where, cursor, limit)) == Rows(table, where, After(cursor))
    ensures |Walk(tables, where, cursor, limit)| == PageCount(|Rows(table, where, After(cursor))|, limit)
    ensures Finished(Walk(tables, where, cursor, limit))
  {
    WalkDecoded(tables, where, cursor, limit);
    SameItems(Walk(tables, where, cursor, limit), IdWalk(tables, where, After(cursor), limit));
    IdWalkOfUnchangingTable(tables, table, where, After(cursor), limit);
    DrainItems(table, where, After(cursor), limit);
    DrainLength(table, where, After(cursor), limit);
  }

  // ---------- offset pages of an unchanging table ----------

  /** All offset pages from `offset` on: a client raises the offset by `limit` while `has_more` is set. */
  function OffsetPages<T>(ordered: seq<Row<T>>, limit: nat, offset: nat): seq<Page<T>>
    requires 1 <= limit
    decreases |ordered| - offset
  {
    var page := PaginateOffset(ordered, limit, offset);
    if page.hasMore then [page] + OffsetPages(ordered, limit, offset + limit) else [page]
  }

  function OffsetItems<T>(pages: seq<Page<T>>): seq<Row<T>> {
    if pages == [] then [] else pages[0].items + OffsetItems(pages[1..])
  }

  /** `has_more` is set exactly when a row lies beyond the page. */
  lemma OffsetHasMore<T>(ordered: seq<Row<T>>, limit: nat, offset: nat)
    requires 1 <= limit
    ensures PaginateOffset(ordered, limit, offset).hasMore <==> offset + limit < |ordered|
    ensures forall i :: 0 <= i < |PaginateOffset(ordered, limit, offset).items| ==>
              offset + i < |ordered| && PaginateOffset(ordered, limit, offset).items[i] == ordered[offset + i]
  {
  }

  lemma {:induction false} OffsetPagesItems<T>(ordered: seq<Row<T>>, limit: nat, offset: nat)
    requires 1 <= limit && offset <= |ordered|
    ensures OffsetItems(OffsetPages(ordered, limit, offset)) == ordered[offset..]
    decreases |ordered| - offset
  {
    var page := PaginateOffset(ordered, limit, offset);
    if page.hasMore {
      OffsetPagesItems(ordered, limit, offset + limit);
      OffsetItemsCons(page, OffsetPages(ordered, limit, offset + limit));
      TakeDrop(ordered[offset..], limit);
      DropDrop(ordered, offset, limit);
    } else {
      OffsetItemsCons(page, []);
      assert [page] + [] == [page];
      assert page.items + [] == page.items;
    }
  }

  lemma {:induction false} OffsetPagesLength<T>(ordered: seq<Row<T>>, limit: nat, offset: nat)
    requires 1 <= limit && offset <= |ordered|
    ensures |OffsetPages(ordered, limit, offset)| == PageCount(|ordered| - offset, limit)
    decreases |ordered| - offset
  {
    if PaginateOffset(ordered, limit, offset).hasMore {
      OffsetPagesLength(ordered, limit, offset + limit);
    }
  }

  lemma OffsetItemsCons<T>(page: Page<T>, rest: seq<Page<T>>)
    ensures OffsetItems([page] + rest) == page.items + OffsetItems(rest)
  {
    assert ([page] + rest)[1..] == rest;
  }

  lemma DropDrop<X>(s: seq<X>, m: nat, n: nat)
    requires m + n <= |s|
    ensures s[m..][n..] == s[m + n..]
  {
  }

  ghost predicate Strict<T>(rows: seq<Row<T>>, column: Row<T> -> int, descending: bool) {
    forall i, j :: 0 <= i < j < |rows| ==>
      if descending then column(rows[i]) > column(rows[j]) else column(rows[i]) < column(rows[j])
  }

  /** Rows have only one strict order. */
  lemma {:induction false} StrictUnique<T>(a: seq<Row<T>>, b: seq<Row<T>>, column: Row<T> -> int, descending: bool)
    requires Strict(a, column, descending) && Strict(b, column, descending)
    requires forall row :: row in a <==> row in b
    ensures a == b
  {
    if a == [] {
      assert forall i :: 0 <= i < |b| ==> b[i] in b;
    } else {
      assert a[0] in a && b != [];
      assert b[0] in a;
      forall row ensures row in a[1..] <==> row in b[1..] {
        assert row in a[1..] <==> row in a && row != a[0];
        assert row in b[1..] <==> row in b && row != b[0];
      }
      StrictUnique(a[1..], b[1..], column, descending);
    }
  }

  /** A listing's ordering holds exactly the statement's rows, each once, whatever column it is ordered by. */
  lemma OrderingHoldsTheRows<T>(ordered: seq<Row<T>>, table: map<int, T>, where: T -> bool, column: Row<T> -> int,
                                descending: bool)
    requires IsOrdering(ordered, table, where, column, descending)
    ensures forall row :: row in ordered <==> row in Rows(table, where, None)
  {
    RowsSound(table, where, None);
    RowsComplete(table, where, None);
    var rows := Rows(table, where, None);
    var ids := MatchingIds(table, where, None);
    OrderingIds(ordered, ids);
    forall row ensures row in ordered <==> row in rows {
      if row in rows {
        var i :| 0 <= i < |rows| && rows[i] == row;
        assert HasId(ordered, row.id);
        var j :| 0 <= j < |ordered| && ordered[j].id == row.id;
        assert ordered[j] == row;
      }
      if row in ordered {
        var i :| 0 <= i < |ordered| && ordered[i] == row;
        assert row == Row(row.id, table[row.id]);
      }
    }
  }

  /** As many distinct ids as the set has elements, all from the set, are the whole set. */
  lemma {:induction false} OrderingIds<T>(ordered: seq<Row<T>>, ids: set<int>)
    requires |ordered| == |ids|
    requires forall i, j :: 0 <= i < j < |ordered| ==> ordered[i].id != ordered[j].id
    requires forall i :: 0 <= i < |ordered| ==> ordered[i].id in ids
    ensures forall id :: id in ids ==> HasId(ordered, id)
  {
    if ordered == [] {
      assert ids == {};
    } else {
      OrderingIds(ordered[1..], ids - {ordered[0].id});
      forall id | id in ids ensures HasId(ordered, id) {
        if id != ordered[0].id {
          assert HasId(ordered[1..], id);
          var j :| 0 <= j < |ordered[1..]| && ordered[1..][j].id == id;
          assert ordered[j + 1].id == id;
        } else {
          assert ordered[0].id == id;
        }
      }
    }
  }

  /**
   * Both styles of pagination return the same rows of an unchanging table: the offset pages hold, each once, the
   * rows of the list that `WalkOfUnchangingTable` says a cursor walk returns.
   */
  lemma OffsetAndCursorAgree<T>(ordered: seq<Row<T>>, table: map<int, T>, where: T -> bool, column: Row<T> -> int,
                                descending: bool, limit: nat)
    requires 1 <= limit
    requires IsOrdering(ordered, table, where, column, descending)
    ensures
      var offsetItems := OffsetItems(OffsetPages(ordered, limit, 0));
      var cursorItems := Rows(table, where, None);
      && (forall row :: row in offsetItems <==> row in cursorItems)
      && |offsetItems| == |cursorItems|
      && (forall i, j :: 0 <= i < j < |offsetItems| ==> offsetItems[i].id != offsetItems[j].id)
  {
    OffsetPagesItems(ordered, limit, 0);
    assert ordered[0..] == ordered;
    OrderingHoldsTheRows(ordered, table, where, column, descending);
    RowsComplete(table, where, None);
  }

  /** Ordered by the default column, `id`, ascending, the two sequences of rows are equal. */
  lemma OffsetByIdEqualsCursor<T>(ordered: seq<Row<T>>, table: map<int, T>, where: T -> bool, column: Row<T> -> int,
                                  limit: nat)
    requires 1 <= limit && forall row: Row<T> :: column(row) == row.id
    requires IsOrdering(ordered, table, where, column, false)
    ensures OffsetItems(OffsetPages(ordered, limit, 0)) == Rows(table, where, None)
  {
    OffsetPagesItems(ordered, limit, 0);
    assert ordered[0..] == ordered;
    OrderingHoldsTheRows(ordered, table, where, column, false);
    RowsSound(table, where, None);
    StrictUnique(ordered, Rows(table, where, None), column, false);
  }
}
