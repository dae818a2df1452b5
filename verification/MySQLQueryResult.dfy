/** MySQLQueryResult: a cursor over the rows of several native results, which skips the
    native seek when it stands on the row before the wanted one, and the copy of all
    rows that editing starts with.
 */
module MySQLQueryResult {
  import opened QtStrings
  import opened ResultPages

  /** The page of the current row will fetch the row behind it. */
  ghost predicate IsBehind(pages: seq<NativeResult>, i: nat, recNo: nat, row: Option<Row>)
    requires i < |pages|
    reads pages
  {
    row.Some? && HasRecord(pages, i, recNo) ==> pages[i].cursor == recNo - |RowsUpTo(pages, i)| + 1
  }

  class Cursor {
    var pages: seq<NativeResult>
    var recordCount: nat
    var curRecNo: nat
    var eof: bool
    var curRow: Option<Row>

    constructor (page: NativeResult)
      requires |page.rows| < MINUS_ONE
      ensures Valid() && IsPlaced() && pages == [page] && curRecNo == MINUS_ONE && fresh(this)
    {
      pages, recordCount, curRecNo, eof, curRow := [page], |page.rows|, MINUS_ONE, false, None;
      AppendedRows([], page);
      assert [] + [page] == [page] && AllRows([]) + page.rows == page.rows;
    }

    /** Pages are separate results, and there are fewer rows than record numbers. */
    ghost predicate Valid()
      reads this
    {
      && (forall i, j | 0 <= i < j < |pages| :: pages[i] != pages[j])
      && recordCount == |AllRows(pages)| < MINUS_ONE
      && (curRecNo <= recordCount || curRecNo == MINUS_ONE)
    }

    /** The native position behind the current row, which a skipped seek relies on. */
    ghost predicate IsPlaced()
      requires Valid()
      reads this, pages
    {
      forall i | 0 <= i < |pages| :: IsBehind(pages, i, curRecNo, curRow)
    }

    /** The current row is the row of the record number. */
    ghost predicate ShowsItsRow()
      requires Valid()
      reads this
    {
      curRecNo < recordCount ==> !eof && curRow == Some(AllRows(pages)[curRecNo])
    }

    /** Seeking shows the wanted row, whether or not the native seek is skipped; only a
        seek to where the cursor stands does nothing at all. */
    method SeekRecNo(value: nat)
      requires Valid() && IsPlaced() && value <= MINUS_ONE
      modifies `curRecNo, `eof, `curRow, pages
      ensures Valid() && IsPlaced()
      ensures value == old(curRecNo) ==> curRecNo == value && eof == old(eof) && curRow == old(curRow)
      ensures value != old(curRecNo) && value < recordCount ==>
                curRecNo == value && !eof && curRow == Some(AllRows(pages)[value])
      ensures value != old(curRecNo) && value >= recordCount ==> curRecNo == recordCount && eof && curRow == old(curRow)
      ensures old(ShowsItsRow()) ==> ShowsItsRow()
    {
      if value == curRecNo {
        return;
      }
      if value >= recordCount {
        curRecNo := recordCount;
        eof := true;
        forall i | 0 <= i < |pages|
          ensures IsBehind(pages, i, curRecNo, curRow)
        {
          NoRecordBehindAll(pages, i, curRecNo);
        }
        return;
      }
      var numRows := 0;
      for i := 0 to |pages|
        invariant numRows == |RowsUpTo(pages, i)| <= value
        invariant curRecNo == old(curRecNo) && curRow == old(curRow) && eof == old(eof)
        invariant forall p | p in pages :: p.cursor == old(p.cursor)
      {
        numRows := numRows + |pages[i].rows|;
        if value < numRows {
          FetchFrom(i, value, |pages[i].rows| - (numRows - value));
          return;
        }
      }
      assert false;
    }

    /** Fetching the wanted row from its page, after a seek if that is needed. */
    method FetchFrom(i: nat, value: nat, wantedLocalRecNo: nat)
      requires Valid() && IsPlaced() && i < |pages| && value < recordCount && value != curRecNo
      requires wantedLocalRecNo < |pages[i].rows| && value == |RowsUpTo(pages, i)| + wantedLocalRecNo
      modifies `curRecNo, `eof, `curRow, pages
      ensures Valid() && IsPlaced()
      ensures curRecNo == value && !eof && curRow == Some(AllRows(pages)[value])
    {
      var page := pages[i];
      RowOfPage(pages, i, |pages|, value);
      assert IsBehind(pages, i, curRecNo, curRow);
      if wantedLocalRecNo == 0 || (curRecNo + 1) % (MINUS_ONE + 1) != value || curRow == None {
        page.DataSeek(wantedLocalRecNo);
      }
      assert page.cursor == wantedLocalRecNo;
      curRow := page.FetchRow();
      curRecNo := value;
      eof := false;
      forall j | 0 <= j < |pages|
        ensures IsBehind(pages, j, curRecNo, curRow)
      {
        if j != i {
          OnePagePerRecord(pages, i, j, value);
        }
      }
    }

    method SeekFirst()
      requires Valid() && IsPlaced()
      modifies `curRecNo, `eof, `curRow, pages
      ensures Valid() && IsPlaced() && ShowsItsRow() && curRecNo == 0 && eof == (recordCount == 0)
    {
      curRecNo := MINUS_ONE;
      forall i | 0 <= i < |pages|
        ensures IsBehind(pages, i, curRecNo, curRow)
      {
        NoRecordBehindAll(pages, i, curRecNo);
      }
      SeekRecNo(0);
    }

    /** The next row, the first one from the start, or the end: behind the last row, where the
        row shown stays and the cursor stays too. */
    method SeekNext()
      requires Valid() && IsPlaced()
      modifies `curRecNo, `eof, `curRow, pages
      ensures Valid() && IsPlaced()
      ensures var next := if old(curRecNo) == MINUS_ONE then 0 else old(curRecNo) + 1;
              if next < recordCount then curRecNo == next && !eof && curRow == Some(AllRows(pages)[next])
              else curRecNo == recordCount && eof && curRow == old(curRow)
    {
      SeekRecNo((curRecNo + 1) % (MINUS_ONE + 1));
    }

    /** Going from the first row to the end visits all rows of all pages, in order. */
    method ReadRows() returns (list: seq<Row>)
      requires Valid() && IsPlaced()
      modifies `curRecNo, `eof, `curRow, pages
      ensures Valid() && IsPlaced() && eof && curRecNo == recordCount
      ensures list == AllRows(pages)
    {
      list := [];
      SeekFirst();
      while !eof
        invariant Valid() && IsPlaced() && ShowsItsRow() && curRecNo <= recordCount && eof == (curRecNo == recordCount)
        invariant list == AllRows(pages)[..curRecNo]
        decreases recordCount - curRecNo
      {
        list := list + [curRow.value];
        SeekNext();
      }
    }

    /** Another page of rows. The current row stays right exactly unless the cursor was at
        the end of the rows, which the new page then continues. */
    method AppendResultData(page: NativeResult)
      requires Valid() && IsPlaced() && page !in pages
      requires recordCount + |page.rows| < MINUS_ONE && (page.rows != [] ==> page.cursor == 1)
      modifies `pages, `recordCount
      ensures Valid() && IsPlaced() && pages == old(pages) + [page]
      ensures AllRows(pages) == old(AllRows(pages)) + page.rows
      ensures old(ShowsItsRow()) && old(eof == (curRecNo == recordCount)) ==>
                (ShowsItsRow() <==> old(curRecNo) != old(recordCount) || page.rows == [])
    {
      AppendedRows(pages, page);
      var next := pages + [page];
      forall i | 0 <= i < |next|
        ensures IsBehind(next, i, curRecNo, curRow)
      {
        SamePrefixRows(next, pages, i);
        if i < |pages| {
          assert IsBehind(pages, i, curRecNo, curRow);
        }
      }
      pages := next;
      recordCount := recordCount + |page.rows|;
    }

    /** Entering edit mode copies all pages: the grid holds the same cells, with NULL and
        empty text told apart, in the order of the pages. */
    method PrepareEditing() returns (grid: seq<Row>)
      requires Valid()
      modifies pages
      ensures grid == AllRows(pages)
    {
      grid := [];
      for i := 0 to |pages|
        invariant grid == RowsUpTo(pages, i)
      {
        var rows := PrepareResultForEditing(pages[i]);
        grid := grid + rows;
      }
    }
  }

  method PrepareResultForEditing(page: NativeResult) returns (grid: seq<Row>)
    modifies page
    ensures grid == page.rows
  {
    page.DataSeek(0);
    grid := [];
    while page.cursor < |page.rows|
      invariant page.cursor <= |page.rows| && grid == page.rows[..page.cursor]
    {
      var fetched := page.FetchRow();
      var rowData := CopyRow(fetched.value);
      grid := grid + [rowData];
    }
  }

  method CopyRow(row: Row) returns (rowData: Row)
    ensures rowData == row
  {
    rowData := [];
    for col := 0 to |row|
      invariant rowData == row[..col]
    {
      rowData := rowData + [row[col]];
    }
  }
}
