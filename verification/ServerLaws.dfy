/** What the model of the server promises whoever sends it statements: a table stays sound over
    any run of them, and no accepted statement names something missing or takes a name that is
    in use.
 */
module ServerLaws {
  import opened Schema
  import opened AlterServer
  import opened AlterReplay

  // ---- names ----

  lemma {:induction false} ResolvedAre(columns: seq<Column>, names: seq<string>)
    ensures ResolveNames(columns, names).Some? ==> HasColumns(columns, ResolveNames(columns, names).value)
    ensures ResolveNames(columns, names).Some? <==> forall n | n in names :: ColumnByName(columns, n).Some?
  {
    if names != [] {
      ResolvedAre(columns, names[1..]);
      var c := ColumnByName(columns, names[0]);
      if c.Some? {
        HasOwnId(columns, c.value);
      }
      assert names[0] in names && forall n | n in names :: n == names[0] || n in names[1..];
    }
  }

  lemma {:induction false} HasOwnId(columns: seq<Column>, c: Column)
    requires c in columns
    ensures ColumnById(columns, c.id).Some?
  {
    if c != columns[0] {
      HasOwnId(columns[1..], c);
    }
  }

  lemma {:induction false} SurvivorsAre(ids: seq<nat>, columns: seq<Column>)
    ensures HasColumns(columns, SurvivingIds(ids, columns))
  {
    if ids != [] {
      SurvivorsAre(ids[1..], columns);
    }
  }

  // ---- columns ----

  lemma {:induction false} ChangedExist(prev: seq<Column>, list: seq<Column>, specs: seq<ColumnSpec>, spec: ColumnSpec)
    requires PlaceColumns(prev, list, specs).Some? && spec in specs && spec.ChangeColumn?
    ensures ColumnByName(prev, spec.oldName).Some?
    decreases specs
  {
    if spec != specs[0] {
      var c := PlacedColumn(prev, specs[0]).value;
      ChangedExist(prev, Insert(list, c, specs[0].place).value, specs[1..], spec);
    }
  }

  // ---- indexes ----

  ghost predicate AreSoundIndexes(indexes: map<IndexName, ServerIndex>, columns: seq<Column>)
  {
    forall name | name in indexes :: indexes[name].columnIds != [] && HasColumns(columns, indexes[name].columnIds)
  }

  lemma {:induction false} AddedIndexesAre(indexes: map<IndexName, ServerIndex>, specs: seq<IndexSpec>,
                                          columns: seq<Column>)
    requires AddIndexes(indexes, specs, columns).Some? && AreSoundIndexes(indexes, columns)
    ensures AreSoundIndexes(AddIndexes(indexes, specs, columns).value, columns)
    ensures forall x | x in specs && x.AddIndex? ::
              && x.name !in indexes && (x.cls == PrimaryKey <==> x.name == PrimaryName)
              && x.columnNames != [] && forall n | n in x.columnNames :: ColumnByName(columns, n).Some?
    ensures forall i, j | 0 <= i < j < |specs| && specs[i].AddIndex? && specs[j].AddIndex? ::
              specs[i].name != specs[j].name
    decreases specs
  {
    if specs != [] {
      var rest := specs[1..];
      assert forall x | x in specs :: x == specs[0] || x in rest;
      assert forall j | 0 < j < |specs| :: specs[j] == rest[j - 1] && specs[j] in rest;
      match specs[0]
      case DropIndex(_) =>
        AddedIndexesAre(indexes, rest, columns);
      case AddIndex(name, cls, kind, columnNames) =>
        ResolvedAre(columns, columnNames);
        var ids := ResolveNames(columns, columnNames).value;
        AddedIndexesAre(indexes[name := ServerIndex(cls, kind, ids)], rest, columns);
    }
  }

  // ---- foreign keys ----

  lemma {:induction false} AddedKeysAre(keys: map<string, ServerKey>, specs: seq<KeySpec>, columns: seq<Column>)
    requires AddKeys(keys, specs, columns).Some? && KeysHaveColumns(keys, columns)
    ensures KeysHaveColumns(AddKeys(keys, specs, columns).value, columns)
    ensures forall x | x in specs && x.AddForeignKey? ::
              x.keyName !in keys && forall n | n in x.columnNames :: ColumnByName(columns, n).Some?
    ensures forall i, j | 0 <= i < j < |specs| && specs[i].AddForeignKey? && specs[j].AddForeignKey? ::
              specs[i].keyName != specs[j].keyName
    decreases specs
  {
    if specs != [] {
      var rest := specs[1..];
      assert forall x | x in specs :: x == specs[0] || x in rest;
      assert forall j | 0 < j < |specs| :: specs[j] == rest[j - 1] && specs[j] in rest;
      match specs[0]
      case DropForeignKey(_) =>
        AddedKeysAre(keys, rest, columns);
      case AddForeignKey(name, columnNames, table, referenceColumns, onUpdate, onDelete) =>
        ResolvedAre(columns, columnNames);
        var ids := ResolveNames(columns, columnNames).value;
        AddedKeysAre(keys[name := ServerKey(ids, table, referenceColumns, onUpdate, onDelete)], rest, columns);
    }
  }

  // ---- the results ----

  lemma {:induction false} DropDefaultIs(columns: seq<Column>, name: string)
    ensures var r := DropDefault(columns, name);
            |r| == |columns| && forall k | 0 <= k < |r| :: r[k].id == columns[k].id && r[k].name == columns[k].name
  {
    if columns != [] {
      DropDefaultIs(columns[1..], name);
    }
  }

  lemma SurvivorsAreSound(indexes: map<IndexName, ServerIndex>, columns: seq<Column>)
    ensures AreSoundIndexes(SurvivingIndexes(indexes, columns), columns)
  {
    forall name | name in SurvivingIndexes(indexes, columns)
      ensures HasColumns(columns, SurvivingIds(indexes[name].columnIds, columns))
    {
      SurvivorsAre(indexes[name].columnIds, columns);
    }
  }

  lemma AcceptedKeepsSound(t: ServerTable, q: Query)
    requires IsSound(t) && Execute(t, q).Some?
    ensures IsSound(Execute(t, q).value)
  {
    match q
    case AlterDropDefault(name) =>
      DropDefaultIs(t.columns, name);
      SameColumnsStaySound(t, DropDefault(t.columns, name));
    case Alter(columnSpecs, dropped, indexSpecs, keySpecs) =>
      var columns := NewColumns(t.columns, columnSpecs, dropped).value;
      var indexes := SurvivingIndexes(t.indexes, columns);
      SurvivorsAreSound(t.indexes, columns);
      AddedIndexesAre(indexes - DroppedIndexes(indexSpecs), indexSpecs, columns);
      AddedKeysAre(t.foreignKeys - DroppedKeys(keySpecs), keySpecs, columns);
  }

  /** Whatever statements are sent, as long as they are accepted names of columns stay distinct,
      and no index or foreign key is left without its columns. */
  lemma {:induction false} RunKeepsSound(t: ServerTable, queries: seq<Query>)
    requires IsSound(t) && ExecuteAll(t, queries).Some?
    ensures IsSound(ExecuteAll(t, queries).value)
    decreases queries
  {
    if queries != [] {
      AcceptedKeepsSound(t, queries[0]);
      RunKeepsSound(Execute(t, queries[0]).value, queries[1..]);
    }
  }

  /** What a statement changes or drops is there. */
  ghost predicate NamesWhatIsThere(t: ServerTable, q: Query)
  {
    match q
    case AlterDropDefault(name) => exists c | c in t.columns :: c.name == name
    case Alter(columnSpecs, dropped, indexSpecs, keySpecs) =>
      && (forall name | name in dropped :: exists c | c in t.columns :: c.name == name)
      && (forall x | x in columnSpecs && x.ChangeColumn? :: exists c | c in t.columns :: c.name == x.oldName)
      && (forall x | x in indexSpecs && x.DropIndex? :: x.name in t.indexes)
      && (forall x | x in keySpecs && x.DropForeignKey? :: x.keyName in t.foreignKeys)
  }

  /** No index has the name, or the one that has is dropped or loses all its columns. */
  ghost predicate IsFreed(indexes: map<IndexName, ServerIndex>, name: IndexName, specs: seq<IndexSpec>,
                          columns: seq<Column>)
  {
    || name !in indexes
    || DropIndex(name) in specs
    || forall id | id in indexes[name].columnIds :: ColumnById(columns, id).None?
  }

  /** What it adds has columns, a name of its own, and one that is not in use: for an index, after
      what is dropped, and for a foreign key, before. */
  ghost predicate TakesFreeNames(t: ServerTable, q: Query, after: ServerTable)
  {
    q.Alter? ==>
      && (forall x | x in q.indexSpecs && x.AddIndex? ::
            && IsFreed(t.indexes, x.name, q.indexSpecs, after.columns)
            && (x.cls == PrimaryKey <==> x.name == PrimaryName) && x.columnNames != []
            && forall n | n in x.columnNames :: exists c | c in after.columns :: c.name == n)
      && (forall x | x in q.keySpecs && x.AddForeignKey? ::
            && x.keyName !in t.foreignKeys
            && forall n | n in x.columnNames :: exists c | c in after.columns :: c.name == n)
      && (forall i, j | 0 <= i < j < |q.indexSpecs| && q.indexSpecs[i].AddIndex? && q.indexSpecs[j].AddIndex? ::
            q.indexSpecs[i].name != q.indexSpecs[j].name)
      && (forall i, j | 0 <= i < j < |q.keySpecs| && q.keySpecs[i].AddForeignKey? && q.keySpecs[j].AddForeignKey? ::
            q.keySpecs[i].keyName != q.keySpecs[j].keyName)
  }

  lemma NamedIsThere(columns: seq<Column>, name: string)
    requires ColumnByName(columns, name).Some?
    ensures exists c | c in columns :: c.name == name
  {
    assert ColumnByName(columns, name).value in columns;
  }

  lemma {:induction false} NoneSurvives(ids: seq<nat>, columns: seq<Column>)
    requires SurvivingIds(ids, columns) == []
    ensures forall id | id in ids :: ColumnById(columns, id).None?
  {
    if ids != [] {
      NoneSurvives(ids[1..], columns);
    }
  }

  /** A statement that names something missing or takes a name in use is refused. */
  lemma AcceptedIsMeant(t: ServerTable, q: Query)
    requires Execute(t, q).Some?
    ensures NamesWhatIsThere(t, q) && TakesFreeNames(t, q, Execute(t, q).value)
  {
    match q
    case AlterDropDefault(name) =>
      NamedIsThere(t.columns, name);
    case Alter(columnSpecs, dropped, indexSpecs, keySpecs) =>
      ChangesWhatIsThere(t.columns, columnSpecs, dropped);
      var columns := NewColumns(t.columns, columnSpecs, dropped).value;
      IndexesTakeFreeNames(t.indexes, indexSpecs, columns);
      KeysTakeFreeNames(t.foreignKeys, keySpecs, columns);
  }

  lemma ChangesWhatIsThere(columns: seq<Column>, specs: seq<ColumnSpec>, dropped: seq<string>)
    requires NewColumns(columns, specs, dropped).Some?
    ensures forall name | name in dropped :: exists c | c in columns :: c.name == name
    ensures forall x | x in specs && x.ChangeColumn? :: exists c | c in columns :: c.name == x.oldName
  {
    forall name | name in dropped
      ensures exists c | c in columns :: c.name == name
    {
      NamedIsThere(columns, name);
    }
    forall x | x in specs && x.ChangeColumn?
      ensures exists c | c in columns :: c.name == x.oldName
    {
      ChangedExist(columns, Untouched(columns, ChangedNames(specs) + ToSet(dropped), 0), specs, x);
      NamedIsThere(columns, x.oldName);
    }
  }

  lemma IndexesTakeFreeNames(indexes: map<IndexName, ServerIndex>, specs: seq<IndexSpec>, columns: seq<Column>)
    requires NewIndexes(indexes, specs, columns).Some?
    ensures forall x | x in specs && x.DropIndex? :: x.name in indexes
    ensures forall x | x in specs && x.AddIndex? ::
              && IsFreed(indexes, x.name, specs, columns)
              && (x.cls == PrimaryKey <==> x.name == PrimaryName) && x.columnNames != []
              && forall n | n in x.columnNames :: exists c | c in columns :: c.name == n
    ensures forall i, j | 0 <= i < j < |specs| && specs[i].AddIndex? && specs[j].AddIndex? ::
              specs[i].name != specs[j].name
  {
    var surviving := SurvivingIndexes(indexes, columns);
    SurvivorsAreSound(indexes, columns);
    AddedIndexesAre(surviving - DroppedIndexes(specs), specs, columns);
    forall x | x in specs && x.DropIndex?
      ensures x.name in indexes
    {
      assert x.name in DroppedIndexes(specs);
    }
    forall x | x in specs && x.AddIndex?
      ensures IsFreed(indexes, x.name, specs, columns)
      ensures forall n | n in x.columnNames :: exists c | c in columns :: c.name == n
    {
      if x.name in indexes && x.name !in surviving {
        NoneSurvives(indexes[x.name].columnIds, columns);
      }
      forall n | n in x.columnNames
        ensures exists c | c in columns :: c.name == n
      {
        NamedIsThere(columns, n);
      }
    }
  }

  lemma KeysTakeFreeNames(keys: map<string, ServerKey>, specs: seq<KeySpec>, columns: seq<Column>)
    requires NewKeys(keys, specs, columns).Some?
    ensures forall x | x in specs && x.DropForeignKey? :: x.keyName in keys
    ensures forall x | x in specs && x.AddForeignKey? ::
              x.keyName !in keys && forall n | n in x.columnNames :: exists c | c in columns :: c.name == n
    ensures forall i, j | 0 <= i < j < |specs| && specs[i].AddForeignKey? && specs[j].AddForeignKey? ::
              specs[i].keyName != specs[j].keyName
  {
    AddedKeysAre(keys - DroppedKeys(specs), specs, columns);
    forall x | x in specs && x.DropForeignKey?
      ensures x.keyName in keys
    {
      assert x.keyName in DroppedKeys(specs);
    }
    forall x | x in specs && x.AddForeignKey?
      ensures x.keyName !in keys && forall n | n in x.columnNames :: exists c | c in columns :: c.name == n
    {
      assert x.keyName in AddedKeyNames(specs);
      assert x.keyName in keys ==> x.keyName in AddedKeyNames(specs) * keys.Keys;
      forall n | n in x.columnNames
        ensures exists c | c in columns :: c.name == n
      {
        NamedIsThere(columns, n);
      }
    }
  }
}
