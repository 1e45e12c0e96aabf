// Listings as clients ask for them (`apply_sort` and `paginate_offset` of app/services/pagination.py): which column
// orders them, and when a request decides the order.
module Listing {
  import opened Wrappers
  import opened Pagination
  import opened CursorWalk

  /** The sort column a client asks for, and whether the order is "desc". */
  datatype Sorting = Sorting(sort: Option<string>, descending: bool)

  /** The columns of a model besides `id`, and those its listing may be ordered by. */
  datatype Columns<!T> = Columns(others: map<string, Row<T> -> int>, allowed: set<string>)

  const DEFAULT_FIELD: string := "id"

  predicate Valid<T>(columns: Columns<T>) {
    columns.allowed <= columns.others.Keys + {DEFAULT_FIELD}
  }

  function Column<T>(columns: Columns<T>, field: string): Row<T> -> int
    requires field == DEFAULT_FIELD || field in columns.others
  {
    if field == DEFAULT_FIELD then (row: Row<T>) => row.id else columns.others[field]
  }

  /** The database answers the request with its rows in this order. */
  ghost predicate IsListing<T>(ordered: seq<Row<T>>, table: map<int, T>, where: T -> bool, columns: Columns<T>,
                               sorting: Sorting)
    requires Valid(columns)
  {
    var field := SortField(sorting.sort, columns.allowed, DEFAULT_FIELD);
    IsOrdering(ordered, table, where, Column(columns, field), sorting.descending)
  }

  /**
   * Whatever column a client asks for, allowed or not, and in either direction, the offset pages joined hold exactly
   * the rows of a cursor walk, each once.
   */
  lemma EveryListingHoldsTheRows<T>(ordered: seq<Row<T>>, table: map<int, T>, where: T -> bool, columns: Columns<T>,
                                    sorting: Sorting, limit: nat)
    requires 1 <= limit && Valid(columns) && IsListing(ordered, table, where, columns, sorting)
    ensures
      var items, rows := OffsetItems(OffsetPages(ordered, limit, 0)), Rows(table, where, None);
      (forall row :: row in items <==> row in rows) && |items| == |rows|
  {
    var column := Column(columns, SortField(sorting.sort, columns.allowed, DEFAULT_FIELD));
    OffsetAndCursorAgree(ordered, table, where, column, sorting.descending, limit);
  }

  /** A column that is not allowed is ignored: ascending, such a request gets the very sequence of a cursor walk. */
  lemma RefusedColumnFallsBackToId<T>(ordered: seq<Row<T>>, table: map<int, T>, where: T -> bool, columns: Columns<T>,
                                      sorting: Sorting, limit: nat)
    requires 1 <= limit && Valid(columns) && IsListing(ordered, table, where, columns, sorting) && !sorting.descending
    requires sorting.sort.Some? ==> sorting.sort.value !in columns.allowed || sorting.sort.value == DEFAULT_FIELD
    ensures OffsetItems(OffsetPages(ordered, limit, 0)) == Rows(table, where, None)
  {
    OffsetByIdEqualsCursor(ordered, table, where, Column(columns, DEFAULT_FIELD), limit);
  }

  /**
   * One page of a listing: it counts all matching rows whatever page is asked for, repeats limit and offset, and holds
   * the rows from the offset on, as many as the limit allows and no fewer if they exist.
   */
  lemma ListingPage<T>(ordered: seq<Row<T>>, table: map<int, T>, where: T -> bool, columns: Columns<T>,
                       sorting: Sorting, limit: nat, offset: nat)
    requires 1 <= limit && Valid(columns) && IsListing(ordered, table, where, columns, sorting)
    ensures
      var page := PaginateOffset(ordered, limit, offset);
      && page.total == |set id | id in table && where(table[id])| && page.limit == limit && page.offset == offset
      && (forall i :: 0 <= i < |page.items| ==> offset + i < |ordered| && page.items[i] == ordered[offset + i])
      && (|page.items| == limit || offset + |page.items| >= page.total)
      && |page.items| <= limit
      && (page.hasMore <==> offset + limit < page.total)
  {
    assert (set id | id in table && where(table[id])) == MatchingIds(table, where, None);
    OffsetHasMore(ordered, limit, offset);
  }

  // ---------- ties ----------

  ghost predicate NoTies<T>(table: map<int, T>, where: T -> bool, column: Row<T> -> int) {
    forall a, b :: a in MatchingIds(table, where, None) && b in MatchingIds(table, where, None) && a != b ==>
      column(Row(a, table[a])) != column(Row(b, table[b]))
  }

  function Swapped<X>(s: seq<X>, i: nat): seq<X>
    requires i + 1 < |s|
  {
    s[i := s[i + 1]][i + 1 := s[i]]
  }

  /** Two tied neighbours may come in either order. */
  lemma TiedNeighboursSwap<T>(ordered: seq<Row<T>>, table: map<int, T>, where: T -> bool, column: Row<T> -> int,
                              descending: bool, i: nat)
    requires IsOrdering(ordered, table, where, column, descending)
    requires i + 1 < |ordered| && column(ordered[i]) == column(ordered[i + 1])
    ensures IsOrdering(Swapped(ordered, i), table, where, column, descending)
    ensures Swapped(ordered, i) != ordered
  {
    var other := Swapped(ordered, i);
    assert other[i].id != ordered[i].id;
    forall j, k | 0 <= j < k < |other|
      ensures other[j].id != other[k].id
      ensures if descending then column(other[j]) >= column(other[k]) else column(other[j]) <= column(other[k])
    {
      var j', k' := SwappedAt(i, j), SwappedAt(i, k);
      assert other[j] == ordered[j'] && other[k] == ordered[k'];
    }
  }

  function SwappedAt(i: nat, j: nat): nat {
    if j == i then i + 1 else if j == i + 1 then i else j
  }

  /** Tied rows anywhere in a listing make two neighbours tied. */
  lemma TiesMeet<T>(ordered: seq<Row<T>>, table: map<int, T>, where: T -> bool, column: Row<T> -> int,
                    descending: bool) returns (i: nat)
    requires IsOrdering(ordered, table, where, column, descending) && !NoTies(table, where, column)
    ensures i + 1 < |ordered| && column(ordered[i]) == column(ordered[i + 1])
  {
    var ids := MatchingIds(table, where, None);
    var a, b :| a in ids && b in ids && a != b && column(Row(a, table[a])) == column(Row(b, table[b]));
    var j := PositionOf(ordered, table, where, column, descending, a);
    var k := PositionOf(ordered, table, where, column, descending, b);
    i := if j < k then j else k;
    NeighbourTied(ordered, column, descending, i, if j < k then k else j);
  }

  lemma PositionOf<T>(ordered: seq<Row<T>>, table: map<int, T>, where: T -> bool, column: Row<T> -> int,
                      descending: bool, id: int) returns (j: nat)
    requires IsOrdering(ordered, table, where, column, descending) && id in MatchingIds(table, where, None)
    ensures j < |ordered| && ordered[j] == Row(id, table[id])
  {
    OrderingIds(ordered, MatchingIds(table, where, None));
    assert HasId(ordered, id);
    j :| 0 <= j < |ordered| && ordered[j].id == id;
  }

  lemma NeighbourTied<T>(ordered: seq<Row<T>>, column: Row<T> -> int, descending: bool, i: nat, j: nat)
    requires i < j < |ordered| && column(ordered[i]) == column(ordered[j])
    requires forall a, b :: 0 <= a < b < |ordered| ==>
               if descending then column(ordered[a]) >= column(ordered[b]) else column(ordered[a]) <= column(ordered[b])
    ensures column(ordered[i]) == column(ordered[i + 1])
  {
  }

  /**
   * A request decides the order of its rows if and only if no two of them are tied in the sort column: nothing breaks
   * a tie.
   */
  lemma ListingDecidedIff<T>(ordered: seq<Row<T>>, table: map<int, T>, where: T -> bool, column: Row<T> -> int,
                             descending: bool)
    requires IsOrdering(ordered, table, where, column, descending)
    ensures (forall other :: IsOrdering(other, table, where, column, descending) ==> other == ordered)
      <==> NoTies(table, where, column)
  {
    if NoTies(table, where, column) {
      forall other | IsOrdering(other, table, where, column, descending) ensures other == ordered {
        OrderingHoldsTheRows(ordered, table, where, column, descending);
        OrderingHoldsTheRows(other, table, where, column, descending);
        UntiedIsStrict(ordered, table, where, column, descending);
        UntiedIsStrict(other, table, where, column, descending);
        StrictUnique(other, ordered, column, descending);
      }
    } else {
      var i := TiesMeet(ordered, table, where, column, descending);
      TiedNeighboursSwap(ordered, table, where, column, descending, i);
    }
  }

  lemma UntiedIsStrict<T>(ordered: seq<Row<T>>, table: map<int, T>, where: T -> bool, column: Row<T> -> int,
                          descending: bool)
    requires IsOrdering(ordered, table, where, column, descending) && NoTies(table, where, column)
    ensures Strict(ordered, column, descending)
  {
    forall i, j | 0 <= i < j < |ordered| ensures column(ordered[i]) != column(ordered[j]) {
      assert ordered[i] == Row(ordered[i].id, table[ordered[i].id]);
      assert ordered[j] == Row(ordered[j].id, table[ordered[j].id]);
    }
  }

  /**
   * A tie across a page boundary can show a row twice and hide another, though the table does not change: the first
   * page from one order and the second from another both hold the same row, and neither holds its neighbour.
   */
  lemma TieAcrossPagesRepeats<T>(ordered: seq<Row<T>>, table: map<int, T>, where: T -> bool, column: Row<T> -> int,
                                 descending: bool, limit: nat)
    requires IsOrdering(ordered, table, where, column, descending) && 1 <= limit < |ordered|
    requires column(ordered[limit - 1]) == column(ordered[limit])
    ensures
      exists other ::
        && IsOrdering(other, table, where, column, descending)
        && ordered[limit - 1] in PaginateOffset(ordered, limit, 0).items
        && ordered[limit - 1] in PaginateOffset(other, limit, limit).items
        && ordered[limit] !in PaginateOffset(ordered, limit, 0).items
        && ordered[limit] !in PaginateOffset(other, limit, limit).items
  {
    TiedNeighboursSwap(ordered, table, where, column, descending, limit - 1);
    var other := Swapped(ordered, limit - 1);
    assert other[limit - 1] == ordered[limit] && other[limit] == ordered[limit - 1];
    FirstPageHolds(ordered, limit);
    SecondPageHolds(other, limit);
  }

  ghost predicate DistinctIds<T>(rows: seq<Row<T>>) {
    forall i, j :: 0 <= i < j < |rows| ==> rows[i].id != rows[j].id
  }

  lemma FirstPageHolds<T>(rows: seq<Row<T>>, limit: nat)
    requires 1 <= limit < |rows| && DistinctIds(rows)
    ensures rows[limit - 1] in PaginateOffset(rows, limit, 0).items
    ensures rows[limit] !in PaginateOffset(rows, limit, 0).items
  {
    var items := PaginateOffset(rows, limit, 0).items;
    OffsetHasMore(rows, limit, 0);
    assert items[limit - 1] == rows[limit - 1];
  }

  lemma SecondPageHolds<T>(rows: seq<Row<T>>, limit: nat)
    requires 1 <= limit < |rows| && DistinctIds(rows)
    ensures rows[limit] in PaginateOffset(rows, limit, limit).items
    ensures rows[limit - 1] !in PaginateOffset(rows, limit, limit).items
  {
    var items := PaginateOffset(rows, limit, limit).items;
    OffsetHasMore(rows, limit, limit);
    assert items[0] == rows[limit];
  }
}
