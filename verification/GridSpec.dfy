/** What editing a grid of query data does to the grid and to the database table behind it,
    as functions of both.
 */
module GridSpec {
  import opened QtStrings
  import opened ResultPages

  // The values of the primary key columns.
  type Key = seq<Cell>

  // The one row being edited: a copy of its data and where it is.
  datatype Pending = Pending(data: Row, rowNumber: nat)

  // The grid's rows as last read or written, the pending row, and the table by primary key.
  datatype State = State(rows: seq<Row>, pending: Option<Pending>, table: map<Key, Row>)

  // The key columns, and whether a row is read again after an update.
  datatype Setup = Setup(width: nat, keyColumns: seq<nat>, reload: bool)

  predicate IsRow(setup: Setup, row: Row)
  {
    |row| == setup.width
  }

  predicate IsSetup(setup: Setup)
  {
    forall c | c in setup.keyColumns :: c < setup.width
  }

  function KeyFrom(setup: Setup, row: Row, i: nat): Key
    requires IsSetup(setup) && IsRow(setup, row) && i <= |setup.keyColumns|
    decreases |setup.keyColumns| - i
  {
    if i == |setup.keyColumns| then []
    else
      assert setup.keyColumns[i] in setup.keyColumns;
      [row[setup.keyColumns[i]]] + KeyFrom(setup, row, i + 1)
  }

  function KeyOf(setup: Setup, row: Row): Key
    requires IsSetup(setup) && IsRow(setup, row)
  {
    KeyFrom(setup, row, 0)
  }

  // ---- the server ----

  datatype Change = Change(column: nat, value: Cell)

  /** The assignments of an UPDATE. */
  function Assign(row: Row, changes: seq<Change>): (r: Row)
    ensures |r| == |row|
    decreases changes
  {
    if changes == [] then row
    else Assign(if changes[0].column < |row| then row[changes[0].column := changes[0].value] else row, changes[1..])
  }

  /** UPDATE of the row with a key: nothing when there is none, and an error, given as None,
      when the new key is taken or NULL, or the server refuses for a reason of its own. */
  function Update(setup: Setup, table: map<Key, Row>, where: Key, changes: seq<Change>,
                  accepted: bool): Option<map<Key, Row>>
    requires IsSetup(setup) && forall k | k in table :: IsRow(setup, table[k])
  {
    if !accepted then None
    else if where !in table then Some(table)
    else
      assert IsRow(setup, table[where]);
      var row := Assign(table[where], changes);
      var key := KeyOf(setup, row);
      if (key != where && key in table) || None in key then None
      else Some((table - {where})[key := row])
  }

  // ---- the steps ----

  /** The cells as the user sees them. */
  function Shown(s: State, row: nat): Row
    requires row < |s.rows|
  {
    if s.pending.Some? && s.pending.value.rowNumber == row then s.pending.value.data else s.rows[row]
  }

  /** Editing a cell: a pending row elsewhere is given up, an unchanged cell changes nothing. */
  function AfterSetData(s: State, row: nat, col: nat, value: Cell): State
    requires row < |s.rows|
  {
    var data := Shown(s, row);
    if col >= |data| || data[col] == value then s
    else s.(pending := Some(Pending(data[col := value], row)))
  }

  /** The columns from index i on in which two rows differ. */
  function Changes(before: Row, after: Row, i: nat): seq<Change>
    requires i <= |before| == |after|
    decreases |before| - i
  {
    if i == |before| then []
    else (if before[i] == after[i] then [] else [Change(i, after[i])]) + Changes(before, after, i + 1)
  }

  /** Grid rows and table rows have the columns of the query. */
  ghost predicate IsState(setup: Setup, s: State)
  {
    && IsSetup(setup)
    && (forall i | 0 <= i < |s.rows| :: IsRow(setup, s.rows[i]))
    && (forall k | k in s.table :: IsRow(setup, s.table[k]))
    && (s.pending.Some? ==> s.pending.value.rowNumber < |s.rows| && IsRow(setup, s.pending.value.data))
  }

  datatype Outcome = Nothing | Refused | Done(row: nat)

  /** What a row holds once it was read again by its key. */
  function Reread(setup: Setup, data: Row, table: map<Key, Row>): Row
    requires IsSetup(setup) && IsRow(setup, data)
  {
    var key := KeyOf(setup, data);
    if key in table && |table[key]| == |data| then table[key] else data
  }

  ghost function AfterApply(setup: Setup, s: State, accepted: bool): (State, Outcome)
    requires IsState(setup, s)
  {
    if s.pending.None? then (s, Nothing)
    else
      var p := s.pending.value;
      var before := s.rows[p.rowNumber];
      var changes := Changes(before, p.data, 0);
      if changes == [] then (s, Nothing)
      else
        var table := Update(setup, s.table, KeyOf(setup, before), changes, accepted);
        if table.None? then (s, Refused)
        else
          var data := if setup.reload then Reread(setup, p.data, table.value) else p.data;
          (State(s.rows[p.rowNumber := data], None, table.value), Done(p.rowNumber))
  }

  function Without<T>(s: seq<T>, i: nat): seq<T>
    requires i < |s|
  {
    s[..i] + s[i + 1..]
  }

  /** The row whose key the WHERE clause names: the pending one, if there is one. */
  function Addressed(s: State, row: nat): nat
  {
    if s.pending.Some? then s.pending.value.rowNumber else row
  }

  ghost function AfterDelete(setup: Setup, s: State, row: nat, accepted: bool): (State, Outcome)
    requires IsState(setup, s) && row < |s.rows|
  {
    if !accepted then (s, Refused)
    else
      var key := KeyOf(setup, s.rows[Addressed(s, row)]);
      (State(Without(s.rows, row), None, s.table - {key}), Done(row))
  }
}
