/** Running all statements of an edit turns the old table into the new one. */
module AlterReplay {
  import opened QtStrings
  import opened Schema
  import opened TableEntityComparator
  import opened AlterServer
  import opened MySQLTableEditor
  import opened AlterColumns
  import opened AlterIndexes
  import opened AlterKeys
  import opened ColumnSql

  // ---- the statements before the main one ----

  lemma {:induction false} NothingNamed(columns: seq<Column>, i: nat)
    requires i <= |columns|
    ensures Untouched(columns, {}, i) == columns[i..]
    decreases |columns| - i
  {
    if i < |columns| {
      NothingNamed(columns, i + 1);
      assert columns[i..] == [columns[i]] + columns[i + 1..];
    }
  }

  /** What every table state during an edit satisfies: names of columns are distinct,
      and indexes and foreign keys refer to columns that exist. */
  ghost predicate IsSound(t: ServerTable)
  {
    && NamesDistinct(t.columns)
    && (forall name | name in t.indexes ::
          t.indexes[name].columnIds != [] && HasColumns(t.columns, t.indexes[name].columnIds))
    && KeysHaveColumns(t.foreignKeys, t.columns)
  }

  lemma ColumnsUntouched(columns: seq<Column>)
    requires NamesDistinct(columns)
    ensures NewColumns(columns, [], []) == Some(columns)
  {
    assert ChangedNames([]) + ToSet<string>([]) == {};
    NothingNamed(columns, 0);
    assert columns[0..] == columns;
  }

  lemma IndexesUntouched(indexes: map<IndexName, ServerIndex>, columns: seq<Column>)
    requires forall name | name in indexes ::
               indexes[name].columnIds != [] && HasColumns(columns, indexes[name].columnIds)
    ensures NewIndexes(indexes, [], columns) == Some(indexes)
  {
    forall name | name in indexes
      ensures SurvivingIds(indexes[name].columnIds, columns) == indexes[name].columnIds
    {
      AllSurvive(indexes[name].columnIds, columns);
    }
    assert DroppedIndexes([]) == {};
    assert SurvivingIndexes(indexes, columns) == indexes;
    assert indexes - {} == indexes;
  }

  /** A statement that only drops a foreign key does just that. */
  lemma DropKeyStatement(t: ServerTable, name: string)
    requires IsSound(t) && name in t.foreignKeys
    ensures Execute(t, Alter([], [], [], [DropForeignKey(name)])) == Some(t.(foreignKeys := t.foreignKeys - {name}))
    ensures IsSound(t.(foreignKeys := t.foreignKeys - {name}))
  {
    ColumnsUntouched(t.columns);
    IndexesUntouched(t.indexes, t.columns);
    var specs := [DropForeignKey(name)];
    assert DroppedKeys(specs) == {name} by {
      assert specs[0] in specs;
    }
    assert AddedKeyNames(specs) == {};
    assert AddKeys(t.foreignKeys - {name}, specs, t.columns) == AddKeys(t.foreignKeys - {name}, [], t.columns);
  }

  lemma EmptyAlter(t: ServerTable)
    requires IsSound(t)
    ensures Execute(t, Alter([], [], [], [])) == Some(t)
  {
    ColumnsUntouched(t.columns);
    IndexesUntouched(t.indexes, t.columns);
    KeysUntouched(t.foreignKeys, t.columns);
  }

  lemma KeysUntouched(keys: map<string, ServerKey>, columns: seq<Column>)
    requires KeysHaveColumns(keys, columns)
    ensures NewKeys(keys, [], columns) == Some(keys)
  {
    assert DroppedKeys([]) == {} && AddedKeyNames([]) == {};
    assert keys - {} == keys;
  }

  /** The foreign keys of the old version but for those dropped. */
  ghost predicate KeysWithout(m: map<string, ServerKey>, prev: seq<ForeignKey>, dropped: set<ForeignKey>)
  {
    && (forall y | y in prev :: if y in dropped then y.name !in m else y.name in m && m[y.name] == ToServerKey(y))
    && (forall name | name in m :: exists y | y in prev :: y.name == name)
  }

  lemma OneKeyDropped(m: map<string, ServerKey>, prev: Table, dropped: set<ForeignKey>, o: ForeignKey)
    requires IsTable(prev) && o in prev.foreignKeys && o !in dropped
    requires KeysWithout(m, prev.foreignKeys, dropped)
    ensures o.name in m
    ensures KeysWithout(m - {o.name}, prev.foreignKeys, dropped + {o})
  {
    forall y | y in prev.foreignKeys && y.name == o.name
      ensures y == o
    {
      SameNameSameKey(prev.foreignKeys, prev.columns, y, o);
    }
  }

  lemma FirstStatement(t: ServerTable, q: Query, next: ServerTable, rest: seq<Query>)
    requires Execute(t, q) == Some(next)
    ensures ExecuteAll(t, [q] + rest) == ExecuteAll(next, rest)
  {
    var queries := [q] + rest;
    assert queries[0] == q && queries[1..] == rest;
  }

  /** The server's foreign keys once the old keys of the pairs were dropped. */
  function Dropped(m: map<string, ServerKey>, pairs: seq<ForeignKeyPair>, i: nat): map<string, ServerKey>
    requires i <= |pairs|
    decreases |pairs| - i
  {
    if i == |pairs| then m else Dropped(m - {pairs[i].oldKey.name}, pairs, i + 1)
  }

  /** Whether every old key is on the server when its turn comes. */
  predicate NamesPresent(m: map<string, ServerKey>, pairs: seq<ForeignKeyPair>, i: nat)
    requires i <= |pairs|
    decreases |pairs| - i
  {
    i == |pairs| || (pairs[i].oldKey.name in m && NamesPresent(m - {pairs[i].oldKey.name}, pairs, i + 1))
  }

  lemma {:induction false} DropsRun(t: ServerTable, pairs: seq<ForeignKeyPair>, i: nat, rest: seq<Query>)
    requires i <= |pairs| && IsSound(t) && NamesPresent(t.foreignKeys, pairs, i)
    ensures IsSound(t.(foreignKeys := Dropped(t.foreignKeys, pairs, i)))
    ensures ExecuteAll(t, DropKeyQueries(pairs, i) + rest)
         == ExecuteAll(t.(foreignKeys := Dropped(t.foreignKeys, pairs, i)), rest)
    decreases |pairs| - i
  {
    if i == |pairs| {
      NothingBefore(rest);
    } else {
      var q := Alter([], [], [], [DropForeignKey(pairs[i].oldKey.name)]);
      var tail := DropKeyQueries(pairs, i + 1) + rest;
      var next := t.(foreignKeys := t.foreignKeys - {pairs[i].oldKey.name});
      DropKeyStatement(t, pairs[i].oldKey.name);
      FirstStatement(t, q, next, tail);
      DropsRun(next, pairs, i + 1, rest);
      Regroup([q], DropKeyQueries(pairs, i + 1), rest);
    }
  }

  /** The old keys of the pairs from index i on. */
  function OldKeys(pairs: seq<ForeignKeyPair>, i: nat): set<ForeignKey>
    requires i <= |pairs|
    decreases |pairs| - i
  {
    if i == |pairs| then {} else {pairs[i].oldKey} + OldKeys(pairs, i + 1)
  }

  lemma {:induction false} OldKeysAre(pairs: seq<ForeignKeyPair>, i: nat, y: ForeignKey)
    requires i <= |pairs|
    ensures y in OldKeys(pairs, i) <==> exists k | i <= k < |pairs| :: pairs[k].oldKey == y
    decreases |pairs| - i
  {
    if i < |pairs| {
      OldKeysAre(pairs, i + 1, y);
    }
  }

  lemma {:induction false} DropsRelate(m: map<string, ServerKey>, prev: Table, dropped: set<ForeignKey>,
                                       pairs: seq<ForeignKeyPair>, i: nat)
    requires IsTable(prev) && i <= |pairs| && PairsDistinct(pairs)
    requires forall k | i <= k < |pairs| :: pairs[k].oldKey in prev.foreignKeys && pairs[k].oldKey !in dropped
    requires KeysWithout(m, prev.foreignKeys, dropped)
    ensures NamesPresent(m, pairs, i)
    ensures KeysWithout(Dropped(m, pairs, i), prev.foreignKeys, dropped + OldKeys(pairs, i))
    decreases |pairs| - i
  {
    if i == |pairs| {
      assert dropped + {} == dropped;
    } else {
      var o := pairs[i].oldKey;
      OneKeyDropped(m, prev, dropped, o);
      DropsRelate(m - {o.name}, prev, dropped + {o}, pairs, i + 1);
      assert dropped + OldKeys(pairs, i) == (dropped + {o}) + OldKeys(pairs, i + 1);
    }
  }

  lemma {:induction false} DropDefaultAt(columns: seq<Column>, i: nat)
    requires NamesDistinct(columns) && i < |columns|
    ensures DropDefault(columns, columns[i].name)
            == columns[i := columns[i].(defaultType := NoDefault, defaultText := [])]
    decreases columns
  {
    if i > 0 {
      DropDefaultAt(columns[1..], i - 1);
      assert DropDefault(columns, columns[i].name) == [columns[0]] + DropDefault(columns[1..], columns[i].name);
    } else {
      assert columns == [columns[0]] + columns[1..];
    }
  }

  lemma SameIdsSameLookups(a: seq<Column>, b: seq<Column>, ids: seq<nat>)
    requires |a| == |b| && forall i | 0 <= i < |a| :: a[i].id == b[i].id
    requires HasColumns(a, ids)
    ensures HasColumns(b, ids)
  {
    forall id | id in ids
      ensures ColumnById(b, id).Some?
    {
      var c := ColumnById(a, id).value;
      var i :| 0 <= i < |a| && a[i] == c;
      assert b[i] in b && b[i].id == id;
    }
  }

  /** Without the default of a column that is not kept, the columns are still prepared. */
  lemma StillPrepared(server: seq<Column>, prev: seq<Column>, curr: seq<Column>, i: nat)
    requires AreColumns(prev) && IsPrepared(server, prev, curr) && i < |prev| && !IsKept(curr, prev[i])
    ensures ColumnByName(server, prev[i].name).Some?
    ensures var columns := DropDefault(server, prev[i].name);
            && IsPrepared(columns, prev, curr) && |columns| == |server|
            && forall k | 0 <= k < |columns| :: columns[k].id == server[k].id && columns[k].name == server[k].name
  {
    PreparedByName(server, prev, curr, i);
    DropDefaultAt(server, i);
  }

  lemma ModifiedIsNotKept(prev: seq<Column>, curr: seq<Column>, s: ColumnStatus) returns (i: nat)
    requires IdsDistinct(curr) && IsModification(s, prev, curr)
    ensures i < |prev| && s.oldCol == Some(prev[i]) && !IsKept(curr, prev[i])
  {
    var o := s.oldCol.value;
    i :| 0 <= i < |prev| && prev[i] == o;
    var j :| 0 <= j < |curr| && curr[j] == s.newCol;
    ColumnByIdAt(curr, j);
  }

  /** Dropping the default of a modified column leaves the table prepared. */
  lemma DefaultDropped(t: ServerTable, prev: seq<Column>, curr: seq<Column>, s: ColumnStatus)
    requires AreColumns(prev) && IdsDistinct(curr) && IsSound(t) && IsPrepared(t.columns, prev, curr)
    requires IsModification(s, prev, curr)
    ensures var r := Execute(t, AlterDropDefault(s.oldCol.value.name));
            && r.Some? && IsSound(r.value) && IsPrepared(r.value.columns, prev, curr)
            && r.value.indexes == t.indexes && r.value.foreignKeys == t.foreignKeys
  {
    var i := ModifiedIsNotKept(prev, curr, s);
    StillPrepared(t.columns, prev, curr, i);
    SameColumnsStaySound(t, DropDefault(t.columns, prev[i].name));
  }

  lemma SameColumnsStaySound(t: ServerTable, columns: seq<Column>)
    requires IsSound(t) && |columns| == |t.columns|
    requires forall k | 0 <= k < |columns| :: columns[k].id == t.columns[k].id && columns[k].name == t.columns[k].name
    ensures IsSound(t.(columns := columns))
  {
    forall name | name in t.indexes
      ensures HasColumns(columns, t.indexes[name].columnIds)
    {
      SameIdsSameLookups(t.columns, columns, t.indexes[name].columnIds);
    }
    forall name | name in t.foreignKeys
      ensures HasColumns(columns, t.foreignKeys[name].columnIds)
    {
      SameIdsSameLookups(t.columns, columns, t.foreignKeys[name].columnIds);
    }
  }

  lemma {:induction false} ModifiedColumnsAre(prev: seq<Column>, curr: seq<Column>, i: nat, s: ColumnStatus)
    requires i <= |curr| && s in ModifiedColumnsFrom(prev, curr, i)
    ensures IsModification(s, prev, curr)
    decreases |curr| - i
  {
    if !(StatusOfColumn(prev, curr[i]).modified && s == StatusOfColumn(prev, curr[i])) {
      ModifiedColumnsAre(prev, curr, i + 1, s);
    }
  }

  /** A column that is modified between the versions. */
  ghost predicate IsModification(s: ColumnStatus, prev: seq<Column>, curr: seq<Column>)
  {
    s.newCol in curr && s == StatusOfColumn(prev, s.newCol) && s.modified
  }

  lemma {:induction false} StatusIsModified(prev: seq<Column>, curr: seq<Column>, i: nat, c: Column)
    requires i <= |curr| && c in curr[i..] && StatusOfColumn(prev, c).modified
    ensures StatusOfColumn(prev, c) in ModifiedColumnsFrom(prev, curr, i)
    decreases |curr| - i
  {
    if c != curr[i] {
      assert curr[i..][1..] == curr[i + 1..];
      StatusIsModified(prev, curr, i + 1, c);
    }
  }

  lemma {:induction false} DropDefaultsAre(modified: seq<ColumnStatus>, i: nat, name: string)
    requires i <= |modified|
    ensures AlterDropDefault(name) in DropDefaultQueries(modified, i)
       <==> exists s :: s in modified[i..] && LosesDefault(s) && s.oldCol.value.name == name
    decreases |modified| - i
  {
    if i < |modified| {
      DropDefaultsAre(modified, i + 1, name);
      assert modified[i..] == [modified[i]] + modified[i + 1..];
    }
  }

  /** The old column had a default and the new one, found by its id, has none. */
  ghost predicate HasLostDefault(prev: seq<Column>, curr: seq<Column>, before: Column, c: Column)
  {
    && c in curr && ColumnById(prev, c.id) == Some(before)
    && before.defaultType != NoDefault && c.defaultType == NoDefault
  }

  /** A default is dropped in a statement of its own if and only if a column loses it, and under
      the name that the column still has. */
  lemma DefaultDroppedIff(prev: Table, curr: Table, name: string)
    ensures AlterDropDefault(name) in EditQueries(prev, curr)
       <==> exists before, c :: HasLostDefault(prev.columns, curr.columns, before, c) && before.name == name
  {
    var modified := ModifiedColumnsFrom(prev.columns, curr.columns, 0);
    DropDefaultsAre(modified, 0, name);
    assert modified[0..] == modified && curr.columns[0..] == curr.columns;
    NoOtherDropsDefault(prev, curr, name);
    if s :| s in modified && LosesDefault(s) && s.oldCol.value.name == name {
      ModifiedColumnsAre(prev.columns, curr.columns, 0, s);
      assert HasLostDefault(prev.columns, curr.columns, s.oldCol.value, s.newCol);
    }
    if before, c :| HasLostDefault(prev.columns, curr.columns, before, c) && before.name == name {
      StatusIsModified(prev.columns, curr.columns, 0, c);
    }
  }

  lemma {:induction false} KeyDropsAreAlters(pairs: seq<ForeignKeyPair>, i: nat)
    requires i <= |pairs|
    ensures forall q | q in DropKeyQueries(pairs, i) :: q.Alter?
    decreases |pairs| - i
  {
    if i < |pairs| {
      KeyDropsAreAlters(pairs, i + 1);
    }
  }

  lemma NoOtherDropsDefault(prev: Table, curr: Table, name: string)
    ensures AlterDropDefault(name) in EditQueries(prev, curr)
       <==> AlterDropDefault(name) in DropDefaultQueries(ModifiedColumnsFrom(prev.columns, curr.columns, 0), 0)
  {
    KeyDropsAreAlters(ModifiedKeysFrom(prev.foreignKeys, curr.foreignKeys, 0), 0);
  }

  lemma OneDefaultDropped(t: ServerTable, prev: seq<Column>, curr: seq<Column>, s: ColumnStatus, tail: seq<Query>)
      returns (next: seq<Column>)
    requires AreColumns(prev) && IdsDistinct(curr) && IsSound(t) && IsPrepared(t.columns, prev, curr)
    requires IsModification(s, prev, curr)
    ensures IsPrepared(next, prev, curr) && IsSound(t.(columns := next))
    ensures ExecuteAll(t, [AlterDropDefault(s.oldCol.value.name)] + tail) == ExecuteAll(t.(columns := next), tail)
  {
    var q := AlterDropDefault(s.oldCol.value.name);
    DefaultDropped(t, prev, curr, s);
    var after := Execute(t, q).value;
    next := after.columns;
    FirstStatement(t, q, after, tail);
    assert after == t.(columns := next);
  }

  lemma {:induction false} DefaultsDropped(t: ServerTable, prev: seq<Column>, curr: seq<Column>,
                                           modified: seq<ColumnStatus>,
                                           i: nat, rest: seq<Query>)
      returns (next: seq<Column>)
    requires AreColumns(prev) && IdsDistinct(curr) && IsSound(t) && IsPrepared(t.columns, prev, curr) && i <= |modified|
    requires forall s | s in modified :: IsModification(s, prev, curr)
    ensures IsPrepared(next, prev, curr) && IsSound(t.(columns := next))
    ensures ExecuteAll(t, DropDefaultQueries(modified, i) + rest) == ExecuteAll(t.(columns := next), rest)
    decreases |modified| - i
  {
    if i == |modified| {
      next := t.columns;
      NothingBefore(rest);
    } else if !LosesDefault(modified[i]) {
      next := DefaultsDropped(t, prev, curr, modified, i + 1, rest);
    } else {
      var tail := DropDefaultQueries(modified, i + 1) + rest;
      var dropped := OneDefaultDropped(t, prev, curr, modified[i], tail);
      next := DefaultsDropped(t.(columns := dropped), prev, curr, modified, i + 1, rest);
      Regroup([AlterDropDefault(modified[i].oldCol.value.name)], DropDefaultQueries(modified, i + 1), rest);
    }
  }

  // ---- the whole edit ----

  lemma PublishedIsSound(t: Table)
    requires IsTable(t) && forall x | x in t.indexes :: x.columnIds != []
    ensures IsSound(Publish(t)) && IsPrepared(Definitions(t.columns), t.columns, t.columns)
  {
    DefinitionsAt(t.columns);
    DefinitionsAreColumns(t.columns);
    PublishedIndexes(t.indexes, t.columns, 0);
    PublishedKeys(t.foreignKeys, t.columns, 0);
    forall name | name in PublishIndexes(t.indexes, 0)
      ensures PublishIndexes(t.indexes, 0)[name].columnIds != []
              && HasColumns(Definitions(t.columns), PublishIndexes(t.indexes, 0)[name].columnIds)
    {
      var k :| 0 <= k < |t.indexes| && t.indexes[k].columnIds != [] && NameOfIndex(t.indexes[k]) == name;
      SameIdsSameLookups(t.columns, Definitions(t.columns), t.indexes[k].columnIds);
    }
    forall name | name in PublishKeys(t.foreignKeys, 0)
      ensures HasColumns(Definitions(t.columns), PublishKeys(t.foreignKeys, 0)[name].columnIds)
    {
      var k :| 0 <= k < |t.foreignKeys| && t.foreignKeys[k].name == name;
      SameIdsSameLookups(t.columns, Definitions(t.columns), t.foreignKeys[k].columnIds);
    }
  }

  /** The pairs join the old and the new form of modified foreign keys. */
  ghost predicate ArePairs(pairs: seq<ForeignKeyPair>, prev: seq<ForeignKey>, curr: seq<ForeignKey>)
  {
    forall k | 0 <= k < |pairs| ::
      && pairs[k].oldKey in prev && pairs[k].newKey in curr && IsModifiedKey(prev, pairs[k].newKey)
      && pairs[k].oldKey == ForeignKeyById(prev, pairs[k].newKey.id).value
  }

  lemma ModifiedPairs(prev: seq<ForeignKey>, curr: seq<ForeignKey>)
    ensures ArePairs(ModifiedKeysFrom(prev, curr, 0), prev, curr)
  {
    var pairs := ModifiedKeysFrom(prev, curr, 0);
    forall k | 0 <= k < |pairs|
      ensures pairs[k].oldKey in prev && pairs[k].newKey in curr && IsModifiedKey(prev, pairs[k].newKey)
              && pairs[k].oldKey == ForeignKeyById(prev, pairs[k].newKey.id).value
    {
      assert pairs[k] in pairs;
      ModifiedKeysAre(prev, curr, 0, pairs[k]);
    }
  }

  /** Dropping the old keys of all pairs leaves the foreign keys prepared. */
  lemma AllPairsDropped(m: map<string, ServerKey>, prev: Table, curr: Table)
    requires IsTable(prev) && IsTable(curr)
    requires KeysWithout(m, prev.foreignKeys, OldKeys(ModifiedKeysFrom(prev.foreignKeys, curr.foreignKeys, 0), 0))
    ensures KeysPrepared(m, prev.foreignKeys, curr.foreignKeys)
  {
    forall y | y in prev.foreignKeys
      ensures IsReadded(curr.foreignKeys, y)
              <==> y in OldKeys(ModifiedKeysFrom(prev.foreignKeys, curr.foreignKeys, 0), 0)
    {
      ReaddedIffPaired(prev, curr, y);
    }
  }

  lemma ReaddedIffPaired(prev: Table, curr: Table, y: ForeignKey)
    requires IsTable(prev) && IsTable(curr) && y in prev.foreignKeys
    ensures IsReadded(curr.foreignKeys, y) <==> y in OldKeys(ModifiedKeysFrom(prev.foreignKeys, curr.foreignKeys, 0), 0)
  {
    var pairs := ModifiedKeysFrom(prev.foreignKeys, curr.foreignKeys, 0);
    OldKeysAre(pairs, 0, y);
    ModifiedPairs(prev.foreignKeys, curr.foreignKeys);
    if k :| 0 <= k < |pairs| && pairs[k].oldKey == y {
      KeptKeyPair(prev, curr, pairs[k].newKey, y);
    }
    if IsReadded(curr.foreignKeys, y) {
      var x := ForeignKeyById(curr.foreignKeys, y.id).value;
      KeptKeyPair(prev, curr, x, y);
      ModifiedKeysAre(prev.foreignKeys, curr.foreignKeys, 0, ForeignKeyPair(y, x));
      var j :| 0 <= j < |curr.foreignKeys| && curr.foreignKeys[j] == x;
      assert IsModifiedKey(prev.foreignKeys, curr.foreignKeys[j]);
      var k :| 0 <= k < |pairs| && pairs[k] == ForeignKeyPair(y, x);
      assert pairs[k].oldKey == y;
    }
  }

  /** The columns, indexes and foreign keys of the new version, whatever order the
      columns came out in: an index or foreign key reported unmodified stays as it was. */
  ghost predicate IsEdited(t: ServerTable, prev: Table, curr: Table)
  {
    && multiset(t.columns) == multiset(Definitions(curr.columns))
    && (t.columns == Definitions(curr.columns) <==> KeepsOrder(prev.columns, curr.columns))
    && IndexesUpTo(t.indexes, prev.indexes, curr.indexes, |curr.indexes|)
    && KeysWith(t.foreignKeys, prev.foreignKeys, curr.foreignKeys, ToSet(curr.foreignKeys))
  }

  lemma MainExecutes(t: ServerTable, prev: Table, curr: Table)
    requires IsTable(prev) && IsTable(curr) && forall x | x in prev.indexes :: x.columnIds != []
    requires IsPrepared(t.columns, prev.columns, curr.columns)
    requires t.indexes == PublishIndexes(prev.indexes, 0)
    requires KeysPrepared(t.foreignKeys, prev.foreignKeys, curr.foreignKeys)
    ensures var r := Execute(t, MainQuery(prev, curr));
            && (r.Some? <==> RemovedNamesStayFree(prev.foreignKeys, curr.foreignKeys))
            && (r.Some? ==> IsEdited(r.value, prev, curr))
  {
    var q := MainQuery(prev, curr);
    ColumnReplay(t.columns, prev.columns, curr.columns);
    var list := NewColumns(t.columns, q.columnSpecs, q.droppedColumns).value;
    IndexReplay(prev, curr, list);
    KeyReplay(t.foreignKeys, prev, curr, list);
    PartsExecute(t, q);
  }

  /** A statement does what its groups of clauses do. */
  lemma PartsExecute(t: ServerTable, q: Query)
    requires q.Alter? && NewColumns(t.columns, q.columnSpecs, q.droppedColumns).Some?
    requires NewIndexes(t.indexes, q.indexSpecs, NewColumns(t.columns, q.columnSpecs, q.droppedColumns).value).Some?
    ensures var columns := NewColumns(t.columns, q.columnSpecs, q.droppedColumns).value;
            var keys := NewKeys(t.foreignKeys, q.keySpecs, columns);
            Execute(t, q) == if keys.None? then None
              else Some(ServerTable(columns, NewIndexes(t.indexes, q.indexSpecs, columns).value, keys.value))
  {
  }

  lemma MainStatement(t: ServerTable, prev: Table, curr: Table)
    requires IsTable(prev) && IsTable(curr) && forall x | x in prev.indexes :: x.columnIds != []
    requires IsSound(t) && IsPrepared(t.columns, prev.columns, curr.columns)
    requires t.indexes == PublishIndexes(prev.indexes, 0)
    requires KeysPrepared(t.foreignKeys, prev.foreignKeys, curr.foreignKeys)
    ensures var r := ExecuteAll(t, MainAlter(prev, curr));
            && (r.Some? <==> RemovedNamesStayFree(prev.foreignKeys, curr.foreignKeys))
            && (r.Some? ==> IsEdited(r.value, prev, curr))
  {
    MainExecutes(t, prev, curr);
    MainRuns(t, MainAlter(prev, curr), MainQuery(prev, curr));
  }

  /** A statement without clauses is not sent, which makes no difference. */
  lemma MainRuns(t: ServerTable, queries: seq<Query>, q: Query)
    requires IsSound(t)
    requires queries == if q == Alter([], [], [], []) then [] else [q]
    ensures ExecuteAll(t, queries) == Execute(t, q)
  {
    if q == Alter([], [], [], []) {
      EmptyAlter(t);
    } else if Execute(t, q).Some? {
      FirstStatement(t, q, Execute(t, q).value, []);
      NothingBehind([q]);
    }
  }

  lemma PreparedForEdit(prev: seq<Column>, curr: seq<Column>)
    ensures IsPrepared(Definitions(prev), prev, curr)
  {
    DefinitionsAt(prev);
  }

  /** The statements before the main one leave the table prepared for it. */
  lemma Preparations(prev: Table, curr: Table, main: seq<Query>) returns (t: ServerTable)
    requires IsTable(prev) && IsTable(curr) && forall x | x in prev.indexes :: x.columnIds != []
    ensures IsSound(t) && IsPrepared(t.columns, prev.columns, curr.columns)
    ensures t.indexes == PublishIndexes(prev.indexes, 0)
    ensures KeysPrepared(t.foreignKeys, prev.foreignKeys, curr.foreignKeys)
    ensures ExecuteAll(Publish(prev), DropKeyQueries(ModifiedKeysFrom(prev.foreignKeys, curr.foreignKeys, 0), 0)
                                      + (DropDefaultQueries(ModifiedColumnsFrom(prev.columns, curr.columns, 0), 0)
                                        + main))
         == ExecuteAll(t, main)
  {
    var pairs := ModifiedKeysFrom(prev.foreignKeys, curr.foreignKeys, 0);
    var modified := ModifiedColumnsFrom(prev.columns, curr.columns, 0);
    PublishedIsSound(prev);
    KeysGetPrepared(prev, curr);
    DropsRun(Publish(prev), pairs, 0, DropDefaultQueries(modified, 0) + main);
    var m := Dropped(Publish(prev).foreignKeys, pairs, 0);

    PreparedForEdit(prev.columns, curr.columns);
    forall s | s in modified
      ensures IsModification(s, prev.columns, curr.columns)
    {
      ModifiedColumnsAre(prev.columns, curr.columns, 0, s);
    }
    var columns := DefaultsDropped(Publish(prev).(foreignKeys := m), prev.columns, curr.columns, modified, 0, main);
    t := Publish(prev).(foreignKeys := m, columns := columns);
  }

  lemma KeysGetPrepared(prev: Table, curr: Table)
    requires IsTable(prev) && IsTable(curr)
    ensures NamesPresent(Publish(prev).foreignKeys, ModifiedKeysFrom(prev.foreignKeys, curr.foreignKeys, 0), 0)
    ensures KeysPrepared(Dropped(Publish(prev).foreignKeys, ModifiedKeysFrom(prev.foreignKeys, curr.foreignKeys, 0), 0),
                         prev.foreignKeys, curr.foreignKeys)
  {
    var pairs := ModifiedKeysFrom(prev.foreignKeys, curr.foreignKeys, 0);
    PublishedWithout(prev);
    ModifiedPairs(prev.foreignKeys, curr.foreignKeys);
    DistinctNewKeys(prev.foreignKeys, curr.foreignKeys);
    DropsRelate(Publish(prev).foreignKeys, prev, {}, pairs, 0);
    assert {} + OldKeys(pairs, 0) == OldKeys(pairs, 0);
    AllPairsDropped(Dropped(Publish(prev).foreignKeys, pairs, 0), prev, curr);
  }

  lemma PublishedWithout(t: Table)
    requires IsTable(t)
    ensures KeysWithout(PublishKeys(t.foreignKeys, 0), t.foreignKeys, {})
  {
    PublishedKeys(t.foreignKeys, t.columns, 0);
    forall y | y in t.foreignKeys
      ensures y.name in PublishKeys(t.foreignKeys, 0) && PublishKeys(t.foreignKeys, 0)[y.name] == ToServerKey(y)
    {
      var k :| 0 <= k < |t.foreignKeys| && t.foreignKeys[k] == y;
    }
    forall name | name in PublishKeys(t.foreignKeys, 0)
      ensures exists y | y in t.foreignKeys :: y.name == name
    {
      var k :| 0 <= k < |t.foreignKeys| && t.foreignKeys[k].name == name;
      assert t.foreignKeys[k] in t.foreignKeys;
    }
  }

  /** The statements of an edit all succeed if and only if no foreign key takes the name of a
      removed one, and together they then give the new version. */
  lemma EditReplay(prev: Table, curr: Table)
    requires IsTable(prev) && IsTable(curr) && forall x | x in prev.indexes :: x.columnIds != []
    ensures var r := ExecuteAll(Publish(prev), EditQueries(prev, curr));
            && (r.Some? <==> RemovedNamesStayFree(prev.foreignKeys, curr.foreignKeys))
            && (r.Some? ==> IsEdited(r.value, prev, curr))
  {
    var main := MainAlter(prev, curr);
    var t := Preparations(prev, curr, main);
    var drops := DropKeyQueries(ModifiedKeysFrom(prev.foreignKeys, curr.foreignKeys, 0), 0);
    var defaults := DropDefaultQueries(ModifiedColumnsFrom(prev.columns, curr.columns, 0), 0);
    assert EditQueries(prev, curr) == drops + (defaults + main);
    MainStatement(t, prev, curr);
  }

  lemma IndexesArePublished(t: ServerTable, prev: Table, curr: Table, x: Index)
    requires IsTable(curr) && IndexesUpTo(t.indexes, prev.indexes, curr.indexes, |curr.indexes|)
    requires x in curr.indexes && x.columnIds != []
    ensures NameOfIndex(x) in t.indexes && t.indexes[NameOfIndex(x)] == FinalIndex(prev.indexes, x)
  {
    var k :| 0 <= k < |curr.indexes| && curr.indexes[k] == x;
  }

  lemma IndexesAreNamed(t: ServerTable, prev: Table, curr: Table, name: IndexName) returns (x: Index)
    requires IsTable(curr) && IndexesUpTo(t.indexes, prev.indexes, curr.indexes, |curr.indexes|)
    requires name in t.indexes
    ensures x in curr.indexes && x.columnIds != [] && NameOfIndex(x) == name
  {
    var k :| 0 <= k < |curr.indexes| && curr.indexes[k].columnIds != [] && NameOfIndex(curr.indexes[k]) == name;
    x := curr.indexes[k];
  }

  // ---- the columns, field by field ----

  /** Columns that agree in everything the table editor prints, and are the same column. */
  predicate AgreesButCharset(x: Column, c: Column)
  {
    && x.id == c.id && x.name == c.name && x.dataType == c.dataType && x.lengthSet == c.lengthSet
    && x.isUnsigned == c.isUnsigned && x.allowNull == c.allowNull && x.zeroFill == c.zeroFill
    && x.defaultType == c.defaultType && x.defaultText == c.defaultText
    && x.comment == c.comment && x.collation == c.collation
  }

  lemma DefinitionAgrees(c: Column)
    ensures AgreesButCharset(Definition(c), c) && Definition(c).charset == []
  {
  }

  /** The columns left by an edit against those of the new version: as many, each with all data
      of the new one but the character set, and at its position if the order is kept. */
  lemma EditedColumnsMatch(t: ServerTable, prev: Table, curr: Table)
    requires IsTable(curr) && IsEdited(t, prev, curr)
    ensures |t.columns| == |curr.columns|
    ensures forall c | c in curr.columns :: exists x | x in t.columns :: AgreesButCharset(x, c)
    ensures forall x | x in t.columns ::
              x.charset == [] && exists c | c in curr.columns :: AgreesButCharset(x, c)
    ensures KeepsOrder(prev.columns, curr.columns) ==>
              forall i | 0 <= i < |curr.columns| :: AgreesButCharset(t.columns[i], curr.columns[i])
  {
    var definitions := Definitions(curr.columns);
    DefinitionsAt(curr.columns);
    assert |t.columns| == |multiset(t.columns)| == |multiset(definitions)| == |definitions|;
    forall c | c in curr.columns
      ensures exists x | x in t.columns :: AgreesButCharset(x, c)
    {
      var i :| 0 <= i < |curr.columns| && curr.columns[i] == c;
      DefinitionAgrees(c);
      assert definitions[i] in multiset(t.columns);
    }
    forall x | x in t.columns
      ensures x.charset == [] && exists c | c in curr.columns :: AgreesButCharset(x, c)
    {
      assert x in multiset(definitions);
      var i :| 0 <= i < |definitions| && definitions[i] == x;
      DefinitionAgrees(curr.columns[i]);
      assert curr.columns[i] in curr.columns;
    }
    forall i | 0 <= i < |curr.columns|
      ensures AgreesButCharset(definitions[i], curr.columns[i])
    {
      DefinitionAgrees(curr.columns[i]);
    }
  }

  /** The character set is indeed not printed, and nothing else is left out of a clause that the
      printer prints. */
  lemma DefinitionDecidesSql(a: Column, b: Column, q: char)
    requires AgreesButCharset(a.(id := 0), b.(id := 0))
    ensures SqlCode(a, q) == SqlCode(b, q)
  {
    assert LengthText(a) == LengthText(b) && UnsignedText(a) == UnsignedText(b) && ZeroFillText(a) == ZeroFillText(b);
    assert NullText(a) == NullText(b) && CommentText(a) == CommentText(b) && CollateText(a) == CollateText(b);
    assert TimestampLength(a) == TimestampLength(b) && LiteralText(a) == LiteralText(b);
    assert OnUpdateText(a) == OnUpdateText(b) && DefaultText(a) == DefaultText(b);
  }

  /** Primary keys go by a name of their own, whatever they are called. */
  predicate HasName(x: Index, name: IndexName)
  {
    match name
    case PrimaryName => x.cls == PrimaryKey
    case Named(n) => x.cls != PrimaryKey && x.name == n
  }

  lemma NameIsHad(x: Index, name: IndexName)
    ensures NameOfIndex(x) == name <==> HasName(x, name)
  {
  }

  /** The indexes left by an edit: those of the new version that have columns, by their names, with
      class, type and columns, up to the order of columns in an index reported unmodified. */
  lemma EditedIndexesMatch(t: ServerTable, prev: Table, curr: Table)
    requires IsTable(curr) && IsEdited(t, prev, curr)
    ensures forall name | name in t.indexes ::
              exists x | x in curr.indexes :: x.columnIds != [] && HasName(x, name)
    ensures forall x, name | x in curr.indexes && x.columnIds != [] && HasName(x, name) ::
              && name in t.indexes && t.indexes[name].cls == x.cls && t.indexes[name].kind == x.kind
              && (if IsKeptIndex(prev.indexes, x) then ToSet(t.indexes[name].columnIds) == ToSet(x.columnIds)
                  else t.indexes[name].columnIds == x.columnIds)
  {
    forall name | name in t.indexes
      ensures exists x | x in curr.indexes :: x.columnIds != [] && HasName(x, name)
    {
      var x := IndexesAreNamed(t, prev, curr, name);
      NameIsHad(x, name);
    }
    forall x, name | x in curr.indexes && x.columnIds != [] && HasName(x, name)
      ensures name in t.indexes && t.indexes[name].cls == x.cls && t.indexes[name].kind == x.kind
      ensures if IsKeptIndex(prev.indexes, x) then ToSet(t.indexes[name].columnIds) == ToSet(x.columnIds)
              else t.indexes[name].columnIds == x.columnIds
    {
      NameIsHad(x, name);
      IndexesArePublished(t, prev, curr, x);
    }
  }

  lemma KeysArePublished(t: ServerTable, prev: Table, curr: Table, k: ForeignKey)
    requires IsTable(curr) && KeysWith(t.foreignKeys, prev.foreignKeys, curr.foreignKeys, ToSet(curr.foreignKeys))
    requires k in curr.foreignKeys
    ensures k.name in t.foreignKeys && t.foreignKeys[k.name] == FinalKey(prev.foreignKeys, k)
  {
    var i :| 0 <= i < |curr.foreignKeys| && curr.foreignKeys[i] == k;
  }

  lemma KeysAreNamed(t: ServerTable, prev: Table, curr: Table, name: string) returns (k: ForeignKey)
    requires IsTable(curr) && KeysWith(t.foreignKeys, prev.foreignKeys, curr.foreignKeys, ToSet(curr.foreignKeys))
    requires name in t.foreignKeys
    ensures k in curr.foreignKeys && k.name == name
  {
    k :| k in curr.foreignKeys && k.name == name;
  }

  /** The foreign keys left by an edit: those of the new version, by their names, up to what
      dataDiffers ignores in one reported unmodified. */
  lemma EditedKeysMatch(t: ServerTable, prev: Table, curr: Table)
    requires IsTable(curr) && IsEdited(t, prev, curr)
    ensures forall name :: name in t.foreignKeys <==> exists k | k in curr.foreignKeys :: k.name == name
    ensures forall k | k in curr.foreignKeys ::
              var y := t.foreignKeys[k.name];
              && y.referenceTable == k.referenceTable && y.onUpdate == k.onUpdate && y.onDelete == k.onDelete
              && (if IsKeptKey(prev.foreignKeys, k)
                  then ToSet(y.columnIds) == ToSet(k.columnIds)
                       && LowerSet(y.referenceColumns) == LowerSet(k.referenceColumns)
                  else y.columnIds == k.columnIds && y.referenceColumns == k.referenceColumns)
  {
    forall name | name in t.foreignKeys
      ensures exists k | k in curr.foreignKeys :: k.name == name
    {
      var k := KeysAreNamed(t, prev, curr, name);
    }
    forall k | k in curr.foreignKeys
      ensures k.name in t.foreignKeys && t.foreignKeys[k.name] == FinalKey(prev.foreignKeys, k)
    {
      KeysArePublished(t, prev, curr, k);
    }
  }
}
