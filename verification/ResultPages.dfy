/** Query results that come in pages: native results of the client library, one after
    another, and the rows of all of them.
 */
module ResultPages {
  import opened QtStrings

  // None is NULL.
  type Cell = Option<string>
  type Row = seq<Cell>

  // db::ulonglong: what -1 is as a record number.
  const MINUS_ONE: nat := 0xFFFF_FFFF_FFFF_FFFF

  /** MYSQL_RES: fetched rows and the position of the next one. */
  class NativeResult {
    const rows: seq<Row>
    var cursor: nat

    constructor (rows: seq<Row>)
      ensures this.rows == rows && cursor == 0
    {
      this.rows := rows;
      cursor := 0;
    }

    /** mysql_data_seek */
    method DataSeek(position: nat)
      modifies this
      ensures cursor == position
    {
      cursor := position;
    }

    /** mysql_fetch_row */
    method FetchRow() returns (row: Option<Row>)
      modifies this
      ensures row == if old(cursor) < |rows| then Some(rows[old(cursor)]) else None
      ensures cursor == if old(cursor) < |rows| then old(cursor) + 1 else old(cursor)
    {
      row := None;
      if cursor < |rows| {
        row := Some(rows[cursor]);
        cursor := cursor + 1;
      }
    }
  }

  /** The rows of the first n pages, one after another. */
  function RowsUpTo(pages: seq<NativeResult>, n: nat): seq<Row>
    requires n <= |pages|
  {
    if n == 0 then [] else RowsUpTo(pages, n - 1) + pages[n - 1].rows
  }

  function AllRows(pages: seq<NativeResult>): seq<Row>
  {
    RowsUpTo(pages, |pages|)
  }

  /** Where the rows of a page are among all rows. */
  lemma {:induction false} RowOfPage(pages: seq<NativeResult>, i: nat, n: nat, v: nat)
    requires i < n <= |pages| && |RowsUpTo(pages, i)| <= v < |RowsUpTo(pages, i)| + |pages[i].rows|
    ensures v < |RowsUpTo(pages, n)| && RowsUpTo(pages, n)[v] == pages[i].rows[v - |RowsUpTo(pages, i)|]
    decreases n
  {
    if n > i + 1 {
      RowOfPage(pages, i, n - 1, v);
    }
  }

  lemma {:induction false} RowsGrow(pages: seq<NativeResult>, i: nat, j: nat)
    requires i <= j <= |pages|
    ensures |RowsUpTo(pages, i)| <= |RowsUpTo(pages, j)|
    decreases j - i
  {
    if i < j {
      RowsGrow(pages, i, j - 1);
    }
  }

  /** Whether record v is among the rows of page i. */
  predicate HasRecord(pages: seq<NativeResult>, i: nat, v: nat)
    requires i < |pages|
  {
    |RowsUpTo(pages, i)| <= v < |RowsUpTo(pages, i)| + |pages[i].rows|
  }

  lemma OnePagePerRecord(pages: seq<NativeResult>, i: nat, j: nat, v: nat)
    requires i < |pages| && j < |pages| && HasRecord(pages, i, v) && i != j
    ensures !HasRecord(pages, j, v)
  {
    var lo, hi := if i < j then i else j, if i < j then j else i;
    RowsGrow(pages, lo + 1, hi);
  }

  lemma NoRecordBehindAll(pages: seq<NativeResult>, i: nat, v: nat)
    requires i < |pages| && v >= |AllRows(pages)|
    ensures !HasRecord(pages, i, v)
  {
    RowsGrow(pages, i + 1, |pages|);
  }

  lemma {:induction false} SamePrefixRows(a: seq<NativeResult>, b: seq<NativeResult>, n: nat)
    requires n <= |a| && n <= |b| && a[..n] == b[..n]
    ensures RowsUpTo(a, n) == RowsUpTo(b, n)
  {
    if n > 0 {
      assert a[..n][n - 1] == b[..n][n - 1];
      assert a[..n - 1] == a[..n][..n - 1] && b[..n - 1] == b[..n][..n - 1];
      SamePrefixRows(a, b, n - 1);
    }
  }

  lemma AppendedRows(pages: seq<NativeResult>, page: NativeResult)
    ensures AllRows(pages + [page]) == AllRows(pages) + page.rows
  {
    SamePrefixRows(pages + [page], pages, |pages|);
  }
}
