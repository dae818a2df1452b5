/** The part of MySQL's ALTER TABLE that the table editor uses, as a function on an
    abstract table. Names of dropped and changed columns, indexes and foreign keys
    are those of the table before the statement; names in AFTER clauses, indexes and
    foreign keys are looked up in the new list of columns. A statement that names
    something missing, or would duplicate a name, fails.
 */
module AlterServer {
  import opened QtStrings
  import opened Schema

  datatype IndexName = PrimaryName | Named(name: string)

  datatype ServerIndex = ServerIndex(cls: IndexClass, kind: IndexType, columnIds: seq<nat>)

  datatype ServerKey = ServerKey(columnIds: seq<nat>, referenceTable: string, referenceColumns: seq<string>,
                                 onUpdate: ReferenceOption, onDelete: ReferenceOption)

  // A column's id stands for its identity on the server, which CHANGE COLUMN keeps.
  datatype ServerTable = ServerTable(
    columns: seq<Column>,
    indexes: map<IndexName, ServerIndex>,
    foreignKeys: map<string, ServerKey>)

  datatype Place = First | After(name: string)

  datatype ColumnSpec =
    | ChangeColumn(oldName: string, definition: Column, place: Place)
    | AddColumn(definition: Column, place: Place)

  datatype IndexSpec =
    | DropIndex(name: IndexName)
    | AddIndex(name: IndexName, cls: IndexClass, kind: IndexType, columnNames: seq<string>)

  datatype KeySpec =
    | DropForeignKey(keyName: string)
    | AddForeignKey(keyName: string, columnNames: seq<string>, referenceTable: string, referenceColumns: seq<string>,
                    onUpdate: ReferenceOption, onDelete: ReferenceOption)

  // The specs of one ALTER TABLE statement, in the groups the editor emits them in.
  datatype Query =
    | Alter(columnSpecs: seq<ColumnSpec>, droppedColumns: seq<string>, indexSpecs: seq<IndexSpec>,
      keySpecs: seq<KeySpec>)
    | AlterDropDefault(columnName: string)

  function ColumnByName(columns: seq<Column>, name: string): (c: Option<Column>)
    ensures c.Some? ==> c.value in columns && c.value.name == name
    ensures c.None? ==> forall x | x in columns :: x.name != name
  {
    if columns == [] then None
    else if columns[0].name == name then Some(columns[0])
    else ColumnByName(columns[1..], name)
  }

  ghost predicate NamesDistinct(columns: seq<Column>)
  {
    forall i, j | 0 <= i < j < |columns| :: columns[i].name != columns[j].name
  }

  // ---- columns ----

  function ChangedNames(specs: seq<ColumnSpec>): set<string>
  {
    set x | x in specs && x.ChangeColumn? :: x.oldName
  }

  /** The columns from index i on that no clause names, in their order. */
  function Untouched(columns: seq<Column>, named: set<string>, i: nat): seq<Column>
    requires i <= |columns|
    decreases |columns| - i
  {
    if i == |columns| then []
    else if columns[i].name in named then Untouched(columns, named, i + 1)
    else [columns[i]] + Untouched(columns, named, i + 1)
  }

  function InsertAfter(columns: seq<Column>, c: Column, name: string): Option<seq<Column>>
  {
    if columns == [] then None
    else if columns[0].name == name then Some([columns[0], c] + columns[1..])
    else
      var rest := InsertAfter(columns[1..], c, name);
      if rest.None? then None else Some([columns[0]] + rest.value)
  }

  function Insert(columns: seq<Column>, c: Column, place: Place): Option<seq<Column>>
  {
    match place
    case First => Some([c] + columns)
    case After(name) => InsertAfter(columns, c, name)
  }

  /** The column a clause puts in place: a changed one keeps its identity. */
  function PlacedColumn(prev: seq<Column>, spec: ColumnSpec): Option<Column>
  {
    match spec
    case ChangeColumn(oldName, definition, _) =>
      var c := ColumnByName(prev, oldName);
      if c.None? then None else Some(definition.(id := c.value.id))
    case AddColumn(definition, _) => Some(definition)
  }

  function PlaceColumns(prev: seq<Column>, list: seq<Column>, specs: seq<ColumnSpec>): Option<seq<Column>>
    decreases specs
  {
    if specs == [] then Some(list)
    else
      var c := PlacedColumn(prev, specs[0]);
      if c.None? then None
      else
        var placed := Insert(list, c.value, specs[0].place);
        if placed.None? then None else PlaceColumns(prev, placed.value, specs[1..])
  }

  ghost function NewColumns(prev: seq<Column>, specs: seq<ColumnSpec>, dropped: seq<string>): Option<seq<Column>>
  {
    var named := ChangedNames(specs) + ToSet(dropped);
    if !(forall name | name in dropped :: ColumnByName(prev, name).Some?) then None
    else
      var columns := PlaceColumns(prev, Untouched(prev, named, 0), specs);
      if columns.Some? && NamesDistinct(columns.value) then columns else None
  }

  // ---- indexes ----

  /** The ids of the named columns, if all of them exist. */
  function ResolveNames(columns: seq<Column>, names: seq<string>): Option<seq<nat>>
  {
    if names == [] then Some([])
    else
      var c := ColumnByName(columns, names[0]);
      var rest := ResolveNames(columns, names[1..]);
      if c.None? || rest.None? then None else Some([c.value.id] + rest.value)
  }

  function SurvivingIds(ids: seq<nat>, columns: seq<Column>): seq<nat>
  {
    if ids == [] then []
    else (if ColumnById(columns, ids[0]).Some? then [ids[0]] else []) + SurvivingIds(ids[1..], columns)
  }

  /** Dropped columns leave their indexes; an index without columns goes too. */
  function SurvivingIndexes(indexes: map<IndexName, ServerIndex>, columns: seq<Column>): map<IndexName, ServerIndex>
  {
    map name | name in indexes && SurvivingIds(indexes[name].columnIds, columns) != [] ::
      indexes[name].(columnIds := SurvivingIds(indexes[name].columnIds, columns))
  }

  function DroppedIndexes(specs: seq<IndexSpec>): set<IndexName>
  {
    set x | x in specs && x.DropIndex? :: x.name
  }

  /** An index needs columns and a free name, and primary keys alone have theirs. */
  function AddIndexes(indexes: map<IndexName, ServerIndex>, specs: seq<IndexSpec>, columns: seq<Column>):
      Option<map<IndexName, ServerIndex>>
    decreases specs
  {
    if specs == [] then Some(indexes)
    else
      match specs[0]
      case DropIndex(_) => AddIndexes(indexes, specs[1..], columns)
      case AddIndex(name, cls, kind, columnNames) =>
        var ids := ResolveNames(columns, columnNames);
        if ids.None? || ids.value == [] || name in indexes || (cls == PrimaryKey) != name.PrimaryName? then None
        else AddIndexes(indexes[name := ServerIndex(cls, kind, ids.value)], specs[1..], columns)
  }

  ghost function NewIndexes(prev: map<IndexName, ServerIndex>, specs: seq<IndexSpec>, columns: seq<Column>):
      Option<map<IndexName, ServerIndex>>
  {
    if !(DroppedIndexes(specs) <= prev.Keys) then None
    else AddIndexes(SurvivingIndexes(prev, columns) - DroppedIndexes(specs), specs, columns)
  }

  // ---- foreign keys ----

  function DroppedKeys(specs: seq<KeySpec>): set<string>
  {
    set x | x in specs && x.DropForeignKey? :: x.keyName
  }

  function AddedKeyNames(specs: seq<KeySpec>): set<string>
  {
    set x | x in specs && x.AddForeignKey? :: x.keyName
  }

  function AddKeys(keys: map<string, ServerKey>, specs: seq<KeySpec>,
                   columns: seq<Column>): Option<map<string, ServerKey>>
    decreases specs
  {
    if specs == [] then Some(keys)
    else
      match specs[0]
      case DropForeignKey(_) => AddKeys(keys, specs[1..], columns)
      case AddForeignKey(name, columnNames, table, referenceColumns, onUpdate, onDelete) =>
        var ids := ResolveNames(columns, columnNames);
        if ids.None? || name in keys then None
        else
          AddKeys(keys[name := ServerKey(ids.value, table, referenceColumns, onUpdate, onDelete)], specs[1..], columns)
  }

  ghost predicate HasColumns(columns: seq<Column>, ids: seq<nat>)
  {
    forall id | id in ids :: ColumnById(columns, id).Some?
  }

  ghost predicate KeysHaveColumns(keys: map<string, ServerKey>, columns: seq<Column>)
  {
    forall name | name in keys :: HasColumns(columns, keys[name].columnIds)
  }

  /** A foreign key that stays must not lose a column, and one that is added must not have the
      name of one that was there before the statement, dropped by it or not. */
  ghost function NewKeys(prev: map<string, ServerKey>, specs: seq<KeySpec>,
                         columns: seq<Column>): Option<map<string, ServerKey>>
  {
    var kept := prev - DroppedKeys(specs);
    if !(DroppedKeys(specs) <= prev.Keys) then None
    else if !KeysHaveColumns(kept, columns) || AddedKeyNames(specs) * prev.Keys != {} then None
    else AddKeys(kept, specs, columns)
  }

  // ---- statements ----

  function DropDefault(columns: seq<Column>, name: string): seq<Column>
  {
    if columns == [] then []
    else if columns[0].name == name then [columns[0].(defaultType := NoDefault, defaultText := [])] + columns[1..]
    else [columns[0]] + DropDefault(columns[1..], name)
  }

  /** The table after a statement, or None when the server refuses it. */
  ghost function Execute(t: ServerTable, q: Query): Option<ServerTable>
  {
    match q
    case AlterDropDefault(name) =>
      if ColumnByName(t.columns, name).None? then None
      else Some(t.(columns := DropDefault(t.columns, name)))
    case Alter(columnSpecs, dropped, indexSpecs, keySpecs) =>
      var columns := NewColumns(t.columns, columnSpecs, dropped);
      if columns.None? then None
      else
        var indexes := NewIndexes(t.indexes, indexSpecs, columns.value);
        var keys := NewKeys(t.foreignKeys, keySpecs, columns.value);
        if indexes.None? || keys.None? then None
        else Some(ServerTable(columns.value, indexes.value, keys.value))
  }

  /** The table after all statements, if none of them fails. */
  ghost function ExecuteAll(t: ServerTable, queries: seq<Query>): Option<ServerTable>
    decreases queries
  {
    if queries == [] then Some(t)
    else
      var next := Execute(t, queries[0]);
      if next.None? then None else ExecuteAll(next.value, queries[1..])
  }
}
