/** PGQueryResult: the same cursor over random-access results, which remembers a page and a
    position in it.
 */
module PGQueryResult {
  import opened QtStrings
  import opened ResultPages

  class Cursor {
    var pages: seq<NativeResult>
    var recordCount: nat
    var curRecNo: nat
    var eof: bool
    var currentResult: NativeResult?
    var curRecNoLocal: nat

    constructor (page: NativeResult)
      requires |page.rows| < MINUS_ONE
      ensures Valid() && pages == [page] && curRecNo == MINUS_ONE && fresh(this)
    {
      pages, recordCount, curRecNo, eof, currentResult, curRecNoLocal := [page], |page.rows|, MINUS_ONE, false, null, 0;
      AppendedRows([], page);
      assert [] + [page] == [page] && AllRows([]) + page.rows == page.rows;
    }

    ghost predicate Valid()
      reads this
    {
      && recordCount == |AllRows(pages)| < MINUS_ONE
      && (curRecNo <= recordCount || curRecNo == MINUS_ONE)
    }

    /** The row that cells are read from. */
    ghost function Shown(): Option<Row>
      reads this
    {
      if currentResult != null && curRecNoLocal < |currentResult.rows| then Some(currentResult.rows[curRecNoLocal])
         else None
    }

    ghost predicate ShowsItsRow()
      requires Valid()
      reads this
    {
      curRecNo < recordCount ==> !eof && Shown() == Some(AllRows(pages)[curRecNo])
    }

    /** Seeking picks the row that indexing all rows gives. */
    method SeekRecNo(value: nat)
      requires Valid() && value <= MINUS_ONE
      modifies `curRecNo, `eof, `currentResult, `curRecNoLocal
      ensures Valid()
      ensures value == old(curRecNo) ==> curRecNo == value && eof == old(eof) && Shown() == old(Shown())
      ensures value != old(curRecNo) && value < recordCount ==>
                curRecNo == value && !eof && Shown() == Some(AllRows(pages)[value])
      ensures value != old(curRecNo) && value >= recordCount
              ==> curRecNo == recordCount && eof && Shown() == old(Shown())
      ensures old(ShowsItsRow()) ==> ShowsItsRow()
    {
      if value == curRecNo {
        return;
      }
      if value >= recordCount {
        curRecNo := recordCount;
        eof := true;
        return;
      }
      var numRows := 0;
      for i := 0 to |pages|
        invariant numRows == |RowsUpTo(pages, i)| <= value
      {
        var resultNumRows := |pages[i].rows|;
        numRows := numRows + resultNumRows;
        if numRows > value {
          currentResult := pages[i];
          curRecNoLocal := resultNumRows - (numRows - value);
          curRecNo := value;
          eof := false;
          RowOfPage(pages, i, |pages|, value);
          return;
        }
      }
      assert false;
    }

    method AppendResultData(page: NativeResult)
      requires Valid() && recordCount + |page.rows| < MINUS_ONE
      modifies `pages, `recordCount
      ensures Valid() && pages == old(pages) + [page]
      ensures AllRows(pages) == old(AllRows(pages)) + page.rows
      ensures old(ShowsItsRow()) && old(eof == (curRecNo == recordCount)) ==>
                (ShowsItsRow() <==> old(curRecNo) != old(recordCount) || page.rows == [])
    {
      AppendedRows(pages, page);
      pages := pages + [page];
      recordCount := recordCount + |page.rows|;
    }

    method PrepareEditing() returns (grid: seq<Row>)
      requires Valid()
      ensures grid == AllRows(pages)
    {
      grid := [];
      for i := 0 to |pages|
        invariant grid == RowsUpTo(pages, i)
      {
        var rows := PrepareResultForEditing(pages[i]);
        grid := grid + rows;
      }
    }
  }

  method PrepareResultForEditing(page: NativeResult) returns (grid: seq<Row>)
    ensures grid == page.rows
  {
    grid := [];
    for row := 0 to |page.rows|
      invariant grid == page.rows[..row]
    {
      var rowData := [];
      for col := 0 to |page.rows[row]|
        invariant rowData == page.rows[row][..col]
      {
        rowData := rowData + [page.rows[row][col]];
      }
      assert rowData == page.rows[row];
      grid := grid + [rowData];
    }
  }
}
