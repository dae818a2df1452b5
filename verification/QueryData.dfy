/** The objects behind a data grid: EditableGridData with its pending row, the database
    table it writes to, and QueryData, which keeps both together.
 */
module QueryData {
  import opened QtStrings
  import opened ResultPages
  import opened GridSpec

  class EditableGridData {
    var rows: seq<Row>
    var editableRow: Option<Pending>

    constructor (rows: seq<Row>)
      ensures this.rows == rows && editableRow == None && fresh(this)
    {
      this.rows, editableRow := rows, None;
    }

    method DataAt(row: nat, col: nat) returns (cell: Cell)
      requires row < |rows| && col < |rows[row]|
      requires editableRow.Some? && editableRow.value.rowNumber == row ==> col < |editableRow.value.data|
      ensures cell == Shown(State(rows, editableRow, map[]), row)[col]
    {
      if editableRow.Some? && editableRow.value.rowNumber == row {
        return editableRow.value.data[col];
      }
      return rows[row][col];
    }

    method SetData(row: nat, col: nat, value: Cell) returns (changed: bool)
      requires row < |rows| && col < |rows[row]|
      requires editableRow.Some? && editableRow.value.rowNumber == row ==> col < |editableRow.value.data|
      modifies this`editableRow
      ensures editableRow == AfterSetData(State(rows, old(editableRow), map[]), row, col, value).pending
      ensures changed == (Shown(State(rows, old(editableRow), map[]), row)[col] != value)
    {
      var before := DataAt(row, col);
      if before == value {
        return false;
      }
      CreateUpdateRow(row);
      editableRow := Some(editableRow.value.(data := editableRow.value.data[col := value]));
      return true;
    }

    method CreateUpdateRow(rowNumber: nat)
      requires rowNumber < |rows|
      modifies this`editableRow
      ensures editableRow == Some(Pending(Shown(State(rows, old(editableRow), map[]), rowNumber), rowNumber))
    {
      if editableRow.None? || editableRow.value.rowNumber != rowNumber {
        editableRow := Some(Pending(rows[rowNumber], rowNumber));
      }
    }

    method DiscardModifications() returns (editableRowNumber: int)
      modifies this`editableRow
      ensures editableRow == None
      ensures editableRowNumber == if old(editableRow).Some? then old(editableRow).value.rowNumber else -1
    {
      editableRowNumber := -1;
      if editableRow.Some? {
        editableRowNumber := editableRow.value.rowNumber;
      }
      editableRow := None;
    }

    method ApplyModifications() returns (editableRowNumber: int)
      requires editableRow.Some? ==> editableRow.value.rowNumber < |rows|
      modifies this
      ensures editableRow == None
      ensures old(editableRow).None? ==> editableRowNumber == -1 && rows == old(rows)
      ensures old(editableRow).Some? ==>
                && editableRowNumber == old(editableRow).value.rowNumber
                && rows == old(rows)[editableRowNumber := old(editableRow).value.data]
    {
      if editableRow.None? {
        return -1;
      }
      editableRowNumber := editableRow.value.rowNumber;
      rows := rows[editableRow.value.rowNumber := editableRow.value.data];
      editableRow := None;
    }

    method DeleteRow(row: nat)
      requires row < |rows|
      modifies this
      ensures editableRow == None && rows == Without(old(rows), row)
    {
      editableRow := None;
      rows := rows[..row] + rows[row + 1..];
    }
  }

  /** The table on the server; a statement may be refused. */
  class Database {
    var table: map<Key, Row>

    constructor (table: map<Key, Row>)
      ensures this.table == table && fresh(this)
    {
      this.table := table;
    }
  }

  class Data {
    const setup: Setup
    const grid: EditableGridData
    const database: Database
    var curRowNumber: int

    constructor (setup: Setup, grid: EditableGridData, database: Database)
      ensures this.setup == setup && this.grid == grid && this.database == database && fresh(this)
    {
      this.setup, this.grid, this.database, curRowNumber := setup, grid, database, -1;
    }

    ghost function Now(): State
      reads grid, database
    {
      State(grid.rows, grid.editableRow, database.table)
    }

    method SetData(row: nat, col: nat, value: Cell)
      requires IsState(setup, Now()) && row < |grid.rows| && col < setup.width
      modifies `curRowNumber, grid`editableRow
      ensures Now() == AfterSetData(old(Now()), row, col, value) && IsState(setup, Now())
    {
      curRowNumber := row;
      assert IsRow(setup, grid.rows[row]);
      var changed := grid.SetData(row, col, value);
    }

    /** The key values for the WHERE clause: of the pending row, before or with its changes,
        or of the current row. */
    method WhereForCurRow(beforeModifications: bool) returns (where: Key)
      requires IsState(setup, Now())
      requires grid.editableRow.None? ==> 0 <= curRowNumber < |grid.rows|
      ensures grid.editableRow.None? ==> where == KeyOf(setup, grid.rows[curRowNumber])
      ensures grid.editableRow.Some? ==>
                var p := grid.editableRow.value;
                where == KeyOf(setup, if beforeModifications then grid.rows[p.rowNumber] else p.data)
    {
      var row := curRowNumber;
      var useEditableData := false;
      if grid.editableRow.Some? {
        row := grid.editableRow.value.rowNumber;
        useEditableData := true;
      }
      assert IsRow(setup, grid.rows[row]);
      ghost var data := if useEditableData && !beforeModifications then grid.editableRow.value.data else grid.rows[row];
      where := [];
      for k := 0 to |setup.keyColumns|
        invariant where + KeyFrom(setup, data, k) == KeyOf(setup, data)
      {
        var i := setup.keyColumns[k];
        assert i in setup.keyColumns;
        var value: Cell;
        if useEditableData && !beforeModifications {
          value := grid.DataAt(row, i);
        } else {
          value := grid.rows[row][i];
        }
        AppendOne(where, value, KeyFrom(setup, data, k + 1));
        where := where + [value];
      }
    }

    /** QueryDataEditor::applyModificationsInDB: an UPDATE of the columns that differ. */
    method ApplyModificationsInDB(accepted: bool) returns (applied: bool, refused: bool)
      requires IsState(setup, Now()) && grid.editableRow.Some?
      modifies database
      ensures var p := grid.editableRow.value;
              var before := grid.rows[p.rowNumber];
              var changes := Changes(before, p.data, 0);
              var table := Update(setup, old(database.table), KeyOf(setup, before), changes, accepted);
              if changes == [] then !applied && !refused && database.table == old(database.table)
              else if table.None? then !applied && refused && database.table == old(database.table)
              else applied && !refused && database.table == table.value
    {
      var p := grid.editableRow.value;
      assert IsRow(setup, grid.rows[p.rowNumber]);
      var updateDataList := ChangedColumns(p.rowNumber, p.data);
      applied, refused := false, false;
      if updateDataList != [] {
        var where := WhereForCurRow(true);
        var updated := Update(setup, database.table, where, updateDataList, accepted);
        if updated.None? {
          refused := true;
        } else {
          database.table := updated.value;
          applied := true;
        }
      }
    }

    method ChangedColumns(editedRowNumber: nat, data: Row) returns (updateDataList: seq<Change>)
      requires editedRowNumber < |grid.rows| && IsRow(setup, grid.rows[editedRowNumber]) && IsRow(setup, data)
      ensures updateDataList == Changes(grid.rows[editedRowNumber], data, 0)
    {
      updateDataList := [];
      for c := 0 to setup.width
        invariant updateDataList + Changes(grid.rows[editedRowNumber], data, c)
                  == Changes(grid.rows[editedRowNumber], data, 0)
      {
        var oldValue, newValue := grid.rows[editedRowNumber][c], data[c];
        if oldValue != newValue {
          AppendOne(updateDataList, Change(c, newValue), Changes(grid.rows[editedRowNumber], data, c + 1));
          updateDataList := updateDataList + [Change(c, newValue)];
        }
      }
    }

    /** QueryData::ensureFullRow(true): the pending row is read again by its new key. */
    method EnsureFullRow()
      requires IsState(setup, Now()) && grid.editableRow.Some?
      modifies grid`editableRow
      ensures grid.editableRow == Some(old(grid.editableRow).value.(
                data := Reread(setup, old(grid.editableRow).value.data, database.table)))
      ensures IsState(setup, Now())
    {
      var where := WhereForCurRow(false);
      if where in database.table {
        var newRowData := database.table[where];
        if |newRowData| == |grid.editableRow.value.data| {
          grid.editableRow := Some(grid.editableRow.value.(data := newRowData));
        }
      }
    }

    method ApplyModifications(accepted: bool) returns (row: int, refused: bool)
      requires IsState(setup, Now())
      modifies grid, database
      ensures Now() == AfterApply(setup, old(Now()), accepted).0
      ensures match AfterApply(setup, old(Now()), accepted).1
              case Done(n) => row == n && !refused
              case Refused => row == -1 && refused
              case Nothing => row == -1 && !refused
    {
      row, refused := -1, false;
      if grid.editableRow.None? {
        return;
      }
      var applied;
      applied, refused := ApplyModificationsInDB(accepted);
      if applied {
        if setup.reload {
          UpdateKeepsRows(setup, old(Now()), database.table, accepted);
          EnsureFullRow();
        }
        row := grid.ApplyModifications();
      }
    }

    lemma UpdateKeepsRows(setup: Setup, s: State, table: map<Key, Row>, accepted: bool)
      requires IsState(setup, s) && s.pending.Some?
      requires var before := s.rows[s.pending.value.rowNumber];
               Update(setup, s.table, KeyOf(setup, before), Changes(before, s.pending.value.data, 0), accepted)
                 == Some(table)
      ensures forall k | k in table :: IsRow(setup, table[k])
    {
    }

    method DiscardModifications() returns (row: int)
      modifies grid`editableRow
      ensures Now() == old(Now()).(pending := None)
      ensures row == if old(grid.editableRow).Some? then old(grid.editableRow).value.rowNumber else -1
    {
      row := grid.DiscardModifications();
    }

    method DeleteRowInDB(row: nat, accepted: bool) returns (refused: bool)
      requires IsState(setup, Now()) && row < |grid.rows|
      modifies `curRowNumber, grid, database
      ensures Now() == AfterDelete(setup, old(Now()), row, accepted).0
      ensures refused == AfterDelete(setup, old(Now()), row, accepted).1.Refused?
    {
      curRowNumber := row;
      var where := WhereForCurRow(true);
      if !accepted {
        return true;
      }
      database.table := database.table - {where};
      grid.DeleteRow(row);
      return false;
    }
  }
}
