// Offset and cursor pagination (app/services/pagination.py).
//
// A table maps primary keys to rows; a statement's WHERE clause is a predicate on rows.
module Pagination {
  import opened Wrappers
  import Decimal
  import Base64

  datatype Row<T> = Row(id: int, value: T)

  datatype CursorPage<T> = CursorPage(items: seq<Row<T>>, nextCursor: Option<string>, hasMore: bool)

  datatype Page<T> = Page(items: seq<Row<T>>, total: nat, limit: nat, offset: nat, hasMore: bool)

  datatype PageError = InvalidCursor

  // ---------- the cursor codec ----------

  predicate IsAscii(text: string) {
    forall i :: 0 <= i < |text| ==> text[i] as int < 128
  }

  /** `text.encode()` for ASCII text, where UTF-8 uses one byte per character. */
  function Utf8(text: string): seq<Base64.Byte>
    requires IsAscii(text)
  {
    seq(|text|, i requires 0 <= i < |text| => text[i] as int)
  }

  function AsciiText(bytes: seq<Base64.Byte>): Option<string> {
    if forall i :: 0 <= i < |bytes| ==> bytes[i] < 128 then
      Some(seq(|bytes|, i requires 0 <= i < |bytes| => bytes[i] as char))
    else
      None
  }

  lemma Utf8RoundTrip(text: string)
    requires IsAscii(text)
    ensures AsciiText(Utf8(text)) == Some(text)
  {
    assert AsciiText(Utf8(text)).value == text;
  }

  function EncodeCursor(value: int): string {
    Decimal.IntTextChars(value);
    Base64.Encode(Utf8(Decimal.IntText(value)))
  }

  function DecodeCursor(cursor: string): Option<int> {
    match Base64.Decode(cursor)
    case None => None
    case Some(bytes) =>
      match AsciiText(bytes)
      case None => None
      case Some(text) => Decimal.ParseInt(text)
  }

  /** The codec loses nothing: every id survives the trip through a cursor. */
  lemma CursorRoundTrip(value: int)
    ensures DecodeCursor(EncodeCursor(value)) == Some(value)
  {
    var text := Decimal.IntText(value);
    Decimal.IntTextChars(value);
    Base64.DecodeEncode(Utf8(text));
    Utf8RoundTrip(text);
    Decimal.ParseIntText(value);
  }

  lemma DistinctCursors(a: int, b: int)
    requires a != b
    ensures EncodeCursor(a) != EncodeCursor(b)
  {
    CursorRoundTrip(a);
    CursorRoundTrip(b);
  }

  // ---------- rows in primary-key order ----------

  lemma {:induction false} LeastExists(ids: set<int>)
    requires |ids| > 0
    ensures exists m :: m in ids && forall x :: x in ids ==> m <= x
  {
    var y := Pick(ids);
    if |ids| > 1 {
      var rest := ids - {y};
      LeastExists(rest);
      var m :| m in rest && forall x :: x in rest ==> m <= x;
      var least := if y < m then y else m;
      forall x | x in ids ensures least <= x {
        assert x == y || x in rest;
      }
      assert least in ids;
    } else {
      assert |ids - {y}| == 0;
      assert ids - {y} == {};
      assert ids == {y};
    }
  }

  function Least(ids: set<int>): (m: int)
    requires |ids| > 0
    ensures m in ids
    ensures forall x :: x in ids ==> m <= x
  {
    LeastExists(ids);
    var m :| m in ids && forall x :: x in ids ==> m <= x;
    m
  }

  function MatchingIds<T>(table: map<int, T>, where: T -> bool, after: Option<int>): set<int> {
    set id | id in table && where(table[id]) && (after.None? || after.value < id)
  }

  lemma MatchingShrinks<T>(table: map<int, T>, where: T -> bool, after: Option<int>, m: int)
    requires m in MatchingIds(table, where, after)
    ensures MatchingIds(table, where, Some(m)) < MatchingIds(table, where, after)
    ensures |MatchingIds(table, where, Some(m))| < |MatchingIds(table, where, after)|
  {
    var all, rest := MatchingIds(table, where, after), MatchingIds(table, where, Some(m));
    assert rest <= all - {m};
    SubsetSize(rest, all - {m});
  }

  /** The statement's rows with an id above `after`, ordered by id: the least one, then those above it. */
  function Rows<T>(table: map<int, T>, where: T -> bool, after: Option<int>): seq<Row<T>>
    decreases |MatchingIds(table, where, after)|
  {
    var ids := MatchingIds(table, where, after);
    if |ids| == 0 then
      []
    else
      var m := Least(ids);
      MatchingShrinks(table, where, after, m);
      [Row(m, table[m])] + Rows(table, where, Some(m))
  }

  /** The list is strictly ordered by id, lies above `after` and holds matching rows of the table. */
  lemma {:induction false} RowsSound<T>(table: map<int, T>, where: T -> bool, after: Option<int>)
    ensures forall i {:trigger Rows(table, where, after)[i]} :: 0 <= i < |Rows(table, where, after)| ==>
              var row := Rows(table, where, after)[i];
              row.id in MatchingIds(table, where, after) && row.value == table[row.id]
    ensures Increasing(Rows(table, where, after))
    decreases |MatchingIds(table, where, after)|
  {
    var ids := MatchingIds(table, where, after);
    if |ids| > 0 {
      var m := Least(ids);
      MatchingShrinks(table, where, after, m);
      RowsSound(table, where, Some(m));
      var rest := Rows(table, where, Some(m));
      assert forall i :: 0 <= i < |rest| ==> rest[i].id in MatchingIds(table, where, Some(m));
    }
  }

  /** No matching row above `after` is missing from the list, which has one entry for each. */
  lemma {:induction false} RowsComplete<T>(table: map<int, T>, where: T -> bool, after: Option<int>)
    ensures forall id :: id in MatchingIds(table, where, after) ==> Row(id, table[id]) in Rows(table, where, after)
    ensures |Rows(table, where, after)| == |MatchingIds(table, where, after)|
    decreases |MatchingIds(table, where, after)|
  {
    var ids := MatchingIds(table, where, after);
    if |ids| > 0 {
      var m := Least(ids);
      MatchingShrinks(table, where, after, m);
      RowsComplete(table, where, Some(m));
      assert ids == {m} + MatchingIds(table, where, Some(m));
      forall id | id in ids ensures Row(id, table[id]) in Rows(table, where, after) {
        assert id == m || id in MatchingIds(table, where, Some(m));
      }
    } else {
      assert ids == {};
    }
  }

  ghost predicate Increasing<T>(rows: seq<Row<T>>) {
    forall i, j :: 0 <= i < j < |rows| ==> rows[i].id < rows[j].id
  }

  function Take<X>(s: seq<X>, n: nat): seq<X> {
    if n <= |s| then s[..n] else s
  }

  /** Selecting the rows above the last one taken leaves exactly the rest of the ordered list. */
  lemma {:induction false} RowsAfter<T>(table: map<int, T>, where: T -> bool, after: Option<int>, n: nat)
    requires 1 <= n <= |Rows(table, where, after)|
    ensures
      var rows := Rows(table, where, after);
      Rows(table, where, Some(rows[n - 1].id)) == rows[n..]
    decreases n
  {
    if n > 1 {
      var m := Least(MatchingIds(table, where, after));
      RowsAfter(table, where, Some(m), n - 1);
    }
  }

  // ---------- one page, between ids ----------

  /** A page's rows and, if more remain, the id the next page starts above. */
  datatype IdPage<T> = IdPage(items: seq<Row<T>>, next: Option<int>)

  function PageAfter<T>(table: map<int, T>, where: T -> bool, after: Option<int>, limit: nat): IdPage<T>
    requires 1 <= limit
  {
    FirstIdPage(Rows(table, where, after), limit)
  }

  function FirstIdPage<T>(remaining: seq<Row<T>>, limit: nat): IdPage<T>
    requires 1 <= limit
  {
    var rows := Take(remaining, limit + 1);
    var items := Take(rows, limit);
    IdPage(items, if |rows| > limit then Some(items[limit - 1].id) else None)
  }

  /** What one page promises: the first `limit` remaining rows, and an id above which exactly the others follow. */
  lemma PageSplitsRemaining<T>(table: map<int, T>, where: T -> bool, after: Option<int>, limit: nat)
    requires 1 <= limit
    ensures
      var remaining, page := Rows(table, where, after), PageAfter(table, where, after, limit);
      && page.items == Take(remaining, limit)
      && (page.next.Some? <==> |remaining| > limit)
      && (page.next.Some? ==> page.next.value == remaining[limit - 1].id
                              && Rows(table, where, page.next) == remaining[limit..])
  {
    var remaining := Rows(table, where, after);
    if |remaining| > limit {
      RowsAfter(table, where, after, limit);
      assert Take(remaining, limit + 1)[..limit] == remaining[..limit];
    }
  }

  // ---------- one page, between cursors ----------

  predicate ValidCursor(cursor: Option<string>) {
    cursor.Some? ==> DecodeCursor(cursor.value).Some?
  }

  function After(cursor: Option<string>): Option<int> {
    if cursor.None? then None else DecodeCursor(cursor.value)
  }

  function PaginateCursor<T>(table: map<int, T>, where: T -> bool, cursor: Option<string>, limit: nat)
    : Result<CursorPage<T>, PageError>
    requires 1 <= limit
  {
    if !ValidCursor(cursor) then Err(InvalidCursor) else Ok(FirstPage(Rows(table, where, After(cursor)), limit))
  }

  /** One row more than the page is selected, to see whether more remain. */
  function FirstPage<T>(remaining: seq<Row<T>>, limit: nat): CursorPage<T>
    requires 1 <= limit
  {
    var rows := Take(remaining, limit + 1);
    var hasMore := |rows| > limit;
    var items := Take(rows, limit);
    var nextCursor := if hasMore && items != [] then Some(EncodeCursor(items[|items| - 1].id)) else None;
    CursorPage(items, nextCursor, hasMore)
  }

  /** The same page, with an id where the other has a cursor. */
  ghost predicate SamePage<T>(page: CursorPage<T>, idPage: IdPage<T>) {
    && page.items == idPage.items
    && (page.hasMore <==> idPage.next.Some?) && (page.nextCursor.Some? <==> idPage.next.Some?)
    && ValidCursor(page.nextCursor) && After(page.nextCursor) == idPage.next
  }

  lemma HandedOutDecodes(id: int)
    ensures ValidCursor(Some(EncodeCursor(id))) && After(Some(EncodeCursor(id))) == Some(id)
  {
    CursorRoundTrip(id);
  }

  lemma FirstPageDecoded<T>(remaining: seq<Row<T>>, limit: nat)
    requires 1 <= limit
    ensures SamePage(FirstPage(remaining, limit), FirstIdPage(remaining, limit))
  {
    if |remaining| > limit {
      HandedOutDecodes(Take(Take(remaining, limit + 1), limit)[limit - 1].id);
    }
  }

  /** Cursors carry ids faithfully: the page is the one between ids, and its cursor decodes to that page's next id. */
  lemma PaginateCursorDecoded<T>(table: map<int, T>, where: T -> bool, cursor: Option<string>, limit: nat)
    requires 1 <= limit && ValidCursor(cursor)
    ensures PaginateCursor(table, where, cursor, limit).Ok?
    ensures SamePage(PaginateCursor(table, where, cursor, limit).value, PageAfter(table, where, After(cursor), limit))
  {
    FirstPageDecoded(Rows(table, where, After(cursor)), limit);
  }

  /** An undecodable cursor is refused. */
  lemma InvalidCursorRefused<T>(table: map<int, T>, where: T -> bool, cursor: string, limit: nat)
    requires 1 <= limit
    ensures PaginateCursor(table, where, Some(cursor), limit) == Err(InvalidCursor) <==> DecodeCursor(cursor).None?
  {
  }

  /**
   * A cursor that a page hands out is never refused later, on whatever table and page size, and continues right after
   * the last row of that page.
   */
  lemma HandedOutCursorContinues<T>(table: map<int, T>, where: T -> bool, cursor: Option<string>, limit: nat,
                                    table': map<int, T>, where': T -> bool, limit': nat)
    requires 1 <= limit && 1 <= limit' && ValidCursor(cursor)
    requires PaginateCursor(table, where, cursor, limit).value.nextCursor.Some?
    ensures
      var page := PaginateCursor(table, where, cursor, limit).value;
      var next := PaginateCursor(table', where', page.nextCursor, limit');
      && page.items != [] && next.Ok?
      && next.value.items == Take(Rows(table', where', Some(page.items[|page.items| - 1].id)), limit')
  {
    PaginateCursorDecoded(table, where, cursor, limit);
    PageSplitsRemaining(table, where, After(cursor), limit);
    var page := PaginateCursor(table, where, cursor, limit).value;
    PaginateCursorDecoded(table', where', page.nextCursor, limit');
    PageSplitsRemaining(table', where', After(page.nextCursor), limit');
  }

  // ---------- offset pages ----------

  /** The column a listing is ordered by: the requested one if it is allowed, else the default. */
  function SortField(sort: Option<string>, allowed: set<string>, defaultField: string): (field: string)
    ensures field in allowed || field == defaultField
    ensures sort.Some? && sort.value in allowed ==> field == sort.value
  {
    if sort.Some? && sort.value in allowed then sort.value else defaultField
  }

  /** `ordered` lists exactly the statement's rows, ordered by a column; ties may come in any order. */
  ghost predicate IsOrdering<T>(ordered: seq<Row<T>>, table: map<int, T>, where: T -> bool,
                                column: Row<T> -> int, descending: bool)
  {
    && |ordered| == |MatchingIds(table, where, None)|
    && (forall i, j :: 0 <= i < j < |ordered| ==> ordered[i].id != ordered[j].id)
    && (forall i :: 0 <= i < |ordered| ==>
          ordered[i].id in MatchingIds(table, where, None) && ordered[i].value == table[ordered[i].id])
    && (forall i, j :: 0 <= i < j < |ordered| ==>
          if descending then column(ordered[i]) >= column(ordered[j]) else column(ordered[i]) <= column(ordered[j]))
  }

  function PaginateOffset<T>(ordered: seq<Row<T>>, limit: nat, offset: nat): Page<T>
    requires 1 <= limit
  {
    var items := Take(if offset <= |ordered| then ordered[offset..] else [], limit);
    Page(items, |ordered|, limit, offset, offset + |items| < |ordered|)
  }
}
