/** MySQLTableEditor::edit: the statements that turn the old version of a table into
    the new one, as clause values; the text of column definitions is ColumnSql's.
 */
module MySQLTableEditor {
  import opened QtStrings
  import opened Schema
  import opened TableEntityComparator
  import opened AlterServer

  /** What the printed definition of a column carries: the character set is not printed. */
  function Definition(c: Column): Column
  {
    c.(charset := [])
  }

  function NameOfIndex(x: Index): IndexName
  {
    if x.cls == PrimaryKey then PrimaryName else Named(x.name)
  }

  /** TableIndex::Column::name and ForeignKey::columnNames: ids looked up in the table. */
  function ColumnNames(columns: seq<Column>, ids: seq<nat>): seq<string>
  {
    if ids == [] then []
    else
      var c := ColumnById(columns, ids[0]);
      [if c.Some? then c.value.name else ""] + ColumnNames(columns, ids[1..])
  }

  function AddIndexSpec(columns: seq<Column>, x: Index): IndexSpec
  {
    AddIndex(NameOfIndex(x), x.cls, x.kind, ColumnNames(columns, x.columnIds))
  }

  function AddKeySpec(columns: seq<Column>, k: ForeignKey): KeySpec
  {
    AddForeignKey(k.name, ColumnNames(columns, k.columnIds), k.referenceTable, k.referenceColumns, k.onUpdate,
      k.onDelete)
  }

  // ---- the clauses, from an index on ----

  function DropKeyQueries(pairs: seq<ForeignKeyPair>, i: nat): seq<Query>
    requires i <= |pairs|
    decreases |pairs| - i
  {
    if i == |pairs| then []
    else [Alter([], [], [], [DropForeignKey(pairs[i].oldKey.name)])] + DropKeyQueries(pairs, i + 1)
  }

  /** DROP DEFAULT works in a statement of its own only. */
  predicate LosesDefault(s: ColumnStatus)
  {
    s.oldCol.Some? && s.oldCol.value.defaultType != s.newCol.defaultType && s.newCol.defaultType == NoDefault
  }

  function DropDefaultQueries(modified: seq<ColumnStatus>, i: nat): seq<Query>
    requires i <= |modified|
    decreases |modified| - i
  {
    if i == |modified| then []
    else if LosesDefault(modified[i]) then
      [AlterDropDefault(modified[i].oldCol.value.name)] + DropDefaultQueries(modified, i + 1)
    else DropDefaultQueries(modified, i + 1)
  }

  function PlaceAt(curr: seq<Column>, i: nat): Place
    requires i <= |curr|
  {
    if i == 0 then First else After(curr[i - 1].name)
  }

  function ColumnSpecs(prev: seq<Column>, curr: seq<Column>, i: nat): seq<ColumnSpec>
    requires i <= |curr|
    decreases |curr| - i
  {
    if i == |curr| then []
    else
      var s := StatusOfColumn(prev, curr[i]);
      if s.modified then
        [ChangeColumn(s.oldCol.value.name, Definition(curr[i]), PlaceAt(curr, i))] + ColumnSpecs(prev, curr, i + 1)
      else if s.added then
        [AddColumn(Definition(curr[i]), PlaceAt(curr, i))] + ColumnSpecs(prev, curr, i + 1)
      else
        ColumnSpecs(prev, curr, i + 1)
  }

  function DroppedNames(removed: seq<Column>, i: nat): seq<string>
    requires i <= |removed|
    decreases |removed| - i
  {
    if i == |removed| then [] else [removed[i].name] + DroppedNames(removed, i + 1)
  }

  function DropIndexSpecs(removed: seq<Index>, i: nat): seq<IndexSpec>
    requires i <= |removed|
    decreases |removed| - i
  {
    if i == |removed| then [] else [DropIndex(NameOfIndex(removed[i]))] + DropIndexSpecs(removed, i + 1)
  }

  /** What one index of the new version asks for; an index without columns is not added. */
  function IndexSpecsOf(columns: seq<Column>, s: IndexStatus): seq<IndexSpec>
  {
    (if s.modified && s.oldIndex.Some? then [DropIndex(NameOfIndex(s.oldIndex.value))] else [])
    + (if (s.added || s.modified) && s.newIndex.columnIds != [] then [AddIndexSpec(columns, s.newIndex)] else [])
  }

  function ChangedIndexSpecs(columns: seq<Column>, statuses: seq<IndexStatus>, i: nat): seq<IndexSpec>
    requires i <= |statuses|
    decreases |statuses| - i
  {
    if i == |statuses| then []
    else IndexSpecsOf(columns, statuses[i]) + ChangedIndexSpecs(columns, statuses, i + 1)
  }

  function DropKeySpecs(removed: seq<ForeignKey>, i: nat): seq<KeySpec>
    requires i <= |removed|
    decreases |removed| - i
  {
    if i == |removed| then [] else [DropForeignKey(removed[i].name)] + DropKeySpecs(removed, i + 1)
  }

  function AddModifiedKeys(columns: seq<Column>, pairs: seq<ForeignKeyPair>, i: nat): seq<KeySpec>
    requires i <= |pairs|
    decreases |pairs| - i
  {
    if i == |pairs| then [] else [AddKeySpec(columns, pairs[i].newKey)] + AddModifiedKeys(columns, pairs, i + 1)
  }

  function AddNewKeys(columns: seq<Column>, added: seq<ForeignKey>, i: nat): seq<KeySpec>
    requires i <= |added|
    decreases |added| - i
  {
    if i == |added| then [] else [AddKeySpec(columns, added[i])] + AddNewKeys(columns, added, i + 1)
  }

  function AllIndexSpecs(prev: Table, curr: Table): seq<IndexSpec>
  {
    DropIndexSpecs(RemovedIndexesFrom(prev.indexes, curr.indexes, 0), 0)
    + ChangedIndexSpecs(curr.columns, IndexStatuses(prev.indexes, curr.indexes, 0), 0)
  }

  function AllKeySpecs(prev: Table, curr: Table): seq<KeySpec>
  {
    DropKeySpecs(RemovedKeysFrom(prev.foreignKeys, curr.foreignKeys, 0), 0)
    + AddModifiedKeys(curr.columns, ModifiedKeysFrom(prev.foreignKeys, curr.foreignKeys, 0), 0)
    + AddNewKeys(curr.columns, RemovedKeysFrom(curr.foreignKeys, prev.foreignKeys, 0), 0)
  }

  function MainQuery(prev: Table, curr: Table): Query
  {
    Alter(ColumnSpecs(prev.columns, curr.columns, 0),
      DroppedNames(RemovedColumnsFrom(prev.columns, curr.columns, 0), 0),
          AllIndexSpecs(prev, curr), AllKeySpecs(prev, curr))
  }

  /** The statement that does the main part of the work, unless there is nothing to do. */
  function MainAlter(prev: Table, curr: Table): seq<Query>
  {
    var q := MainQuery(prev, curr);
    if q == Alter([], [], [], []) then [] else [q]
  }

  /** All statements sent for an edit, in order. */
  function EditQueries(prev: Table, curr: Table): seq<Query>
  {
    DropKeyQueries(ModifiedKeysFrom(prev.foreignKeys, curr.foreignKeys, 0), 0)
    + DropDefaultQueries(ModifiedColumnsFrom(prev.columns, curr.columns, 0), 0)
    + MainAlter(prev, curr)
  }

  // ---- the editor's loops ----

  method EditColumns(prev: seq<Column>, curr: seq<Column>) returns (specs: seq<ColumnSpec>)
    ensures specs == ColumnSpecs(prev, curr, 0)
  {
    specs := [];
    var prevColumn: Option<Column> := None;
    var statuses := CurrColumnsWithStatus(prev, curr);
    for i := 0 to |statuses|
      invariant prevColumn == if i == 0 then None else Some(curr[i - 1])
      invariant specs + ColumnSpecs(prev, curr, i) == ColumnSpecs(prev, curr, 0)
    {
      var status := statuses[i];
      if !status.modified && !status.added {
        prevColumn := Some(status.newCol);
        continue;
      }
      var place := if prevColumn.Some? then After(prevColumn.value.name) else First;
      var spec := if status.modified
                  then ChangeColumn(status.oldCol.value.name, Definition(status.newCol), place)
                  else AddColumn(Definition(status.newCol), place);
      AppendOne(specs, spec, ColumnSpecs(prev, curr, i + 1));
      specs := specs + [spec];
      prevColumn := Some(status.newCol);
    }
  }

  method DropColumns(prev: seq<Column>, curr: seq<Column>) returns (names: seq<string>)
    ensures names == DroppedNames(RemovedColumnsFrom(prev, curr, 0), 0)
  {
    names := [];
    var removed := RemovedColumns(prev, curr);
    for i := 0 to |removed|
      invariant names + DroppedNames(removed, i) == DroppedNames(removed, 0)
    {
      AppendOne(names, removed[i].name, DroppedNames(removed, i + 1));
      names := names + [removed[i].name];
    }
  }

  method DropIndexes(removed: seq<Index>) returns (specs: seq<IndexSpec>)
    ensures specs == DropIndexSpecs(removed, 0)
  {
    specs := [];
    for i := 0 to |removed|
      invariant specs + DropIndexSpecs(removed, i) == DropIndexSpecs(removed, 0)
    {
      AppendOne(specs, DropIndex(NameOfIndex(removed[i])), DropIndexSpecs(removed, i + 1));
      specs := specs + [DropIndex(NameOfIndex(removed[i]))];
    }
  }

  method ChangeIndexes(columns: seq<Column>, statuses: seq<IndexStatus>) returns (specs: seq<IndexSpec>)
    requires forall s | s in statuses :: s.modified ==> s.oldIndex.Some?
    ensures specs == ChangedIndexSpecs(columns, statuses, 0)
  {
    specs := [];
    for i := 0 to |statuses|
      invariant specs + ChangedIndexSpecs(columns, statuses, i) == ChangedIndexSpecs(columns, statuses, 0)
    {
      var status := statuses[i];
      ghost var before, rest := specs, ChangedIndexSpecs(columns, statuses, i + 1);
      if status.modified {
        specs := specs + [DropIndex(NameOfIndex(status.oldIndex.value))];
      }
      if status.added || status.modified {
        if status.newIndex.columnIds != [] {
          specs := specs + [AddIndexSpec(columns, status.newIndex)];
        }
      }
      assert specs == before + IndexSpecsOf(columns, status);
      Regroup(before, IndexSpecsOf(columns, status), rest);
    }
  }

  method DropForeignKeys(removed: seq<ForeignKey>) returns (specs: seq<KeySpec>)
    ensures specs == DropKeySpecs(removed, 0)
  {
    specs := [];
    for i := 0 to |removed|
      invariant specs + DropKeySpecs(removed, i) == DropKeySpecs(removed, 0)
    {
      AppendOne(specs, DropForeignKey(removed[i].name), DropKeySpecs(removed, i + 1));
      specs := specs + [DropForeignKey(removed[i].name)];
    }
  }

  method ReaddForeignKeys(columns: seq<Column>, modified: seq<ForeignKeyPair>) returns (specs: seq<KeySpec>)
    ensures specs == AddModifiedKeys(columns, modified, 0)
  {
    specs := [];
    for i := 0 to |modified|
      invariant specs + AddModifiedKeys(columns, modified, i) == AddModifiedKeys(columns, modified, 0)
    {
      AppendOne(specs, AddKeySpec(columns, modified[i].newKey), AddModifiedKeys(columns, modified, i + 1));
      specs := specs + [AddKeySpec(columns, modified[i].newKey)];
    }
  }

  method AddForeignKeys(columns: seq<Column>, added: seq<ForeignKey>) returns (specs: seq<KeySpec>)
    ensures specs == AddNewKeys(columns, added, 0)
  {
    specs := [];
    for i := 0 to |added|
      invariant specs + AddNewKeys(columns, added, i) == AddNewKeys(columns, added, 0)
    {
      AppendOne(specs, AddKeySpec(columns, added[i]), AddNewKeys(columns, added, i + 1));
      specs := specs + [AddKeySpec(columns, added[i])];
    }
  }

  /** Modified foreign keys are dropped in queries of their own, by their old names. */
  method DropModifiedKeys(modified: seq<ForeignKeyPair>) returns (queries: seq<Query>)
    ensures queries == DropKeyQueries(modified, 0)
  {
    queries := [];
    for i := 0 to |modified|
      invariant queries + DropKeyQueries(modified, i) == DropKeyQueries(modified, 0)
    {
      var q := Alter([], [], [], [DropForeignKey(modified[i].oldKey.name)]);
      AppendOne(queries, q, DropKeyQueries(modified, i + 1));
      queries := queries + [q];
    }
  }

  method DropDefaults(modified: seq<ColumnStatus>) returns (queries: seq<Query>)
    ensures queries == DropDefaultQueries(modified, 0)
  {
    queries := [];
    for i := 0 to |modified|
      invariant queries + DropDefaultQueries(modified, i) == DropDefaultQueries(modified, 0)
    {
      if LosesDefault(modified[i]) {
        var q := AlterDropDefault(modified[i].oldCol.value.name);
        AppendOne(queries, q, DropDefaultQueries(modified, i + 1));
        queries := queries + [q];
      }
    }
  }

  /** The statements the editor sends, and whether it changed anything. */
  method Edit(prev: Table, curr: Table) returns (queries: seq<Query>, changed: bool)
    ensures queries == EditQueries(prev, curr)
    ensures changed == (queries != [])
  {
    var modifiedKeys := ModifiedForeignKeys(prev.foreignKeys, curr.foreignKeys);
    queries := DropModifiedKeys(modifiedKeys);

    var modifiedColumns := ModifiedColumns(prev.columns, curr.columns);
    var dropDefaults := DropDefaults(modifiedColumns);
    queries := queries + dropDefaults;

    var columnSpecs := EditColumns(prev.columns, curr.columns);
    var droppedColumns := DropColumns(prev.columns, curr.columns);

    var removedIndexes := RemovedIndices(prev.indexes, curr.indexes);
    var indexSpecs := DropIndexes(removedIndexes);
    var statuses := CurrIndicesWithStatus(prev.indexes, curr.indexes);
    var changedIndexes := ChangeIndexes(curr.columns, statuses);
    indexSpecs := indexSpecs + changedIndexes;

    var removedKeys := RemovedForeignKeys(prev.foreignKeys, curr.foreignKeys);
    var keySpecs := DropForeignKeys(removedKeys);
    var readdedKeys := ReaddForeignKeys(curr.columns, modifiedKeys);
    var addedKeys := AddedForeignKeys(prev.foreignKeys, curr.foreignKeys);
    var newKeys := AddForeignKeys(curr.columns, addedKeys);
    keySpecs := keySpecs + readdedKeys + newKeys;

    var q := Alter(columnSpecs, droppedColumns, indexSpecs, keySpecs);
    if q != Alter([], [], [], []) {
      queries := queries + [q];
    }
    changed := queries != [];
  }
}
