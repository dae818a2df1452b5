/** Replaying the index clauses of an edit on the old indexes gives the new ones. */
module AlterIndexes {
  import opened QtStrings
  import opened Schema
  import opened TableEntityComparator
  import opened AlterServer
  import opened MySQLTableEditor
  import opened AlterColumns

  // ---- tables as the server holds them ----

  function ToServerIndex(x: Index): ServerIndex
  {
    ServerIndex(x.cls, x.kind, x.columnIds)
  }

  function ToServerKey(k: ForeignKey): ServerKey
  {
    ServerKey(k.columnIds, k.referenceTable, k.referenceColumns, k.onUpdate, k.onDelete)
  }

  /** An index without columns is not on the server. */
  function PublishIndexes(indexes: seq<Index>, i: nat): map<IndexName, ServerIndex>
    requires i <= |indexes|
    decreases |indexes| - i
  {
    if i == |indexes| then map[]
    else if indexes[i].columnIds == [] then PublishIndexes(indexes, i + 1)
    else PublishIndexes(indexes, i + 1)[NameOfIndex(indexes[i]) := ToServerIndex(indexes[i])]
  }

  function PublishKeys(keys: seq<ForeignKey>, i: nat): map<string, ServerKey>
    requires i <= |keys|
    decreases |keys| - i
  {
    if i == |keys| then map[]
    else PublishKeys(keys, i + 1)[keys[i].name := ToServerKey(keys[i])]
  }

  function Publish(t: Table): ServerTable
  {
    ServerTable(Definitions(t.columns), PublishIndexes(t.indexes, 0), PublishKeys(t.foreignKeys, 0))
  }

  /** Indexes have distinct ids; those with columns have distinct names and columns that exist. */
  ghost predicate AreIndexes(indexes: seq<Index>, columns: seq<Column>)
  {
    && (forall i, j | 0 <= i < j < |indexes| :: indexes[i].id != indexes[j].id)
    && (forall i, j | 0 <= i < j < |indexes| ::
          indexes[i].columnIds != [] && indexes[j].columnIds != [] ==>
            NameOfIndex(indexes[i]) != NameOfIndex(indexes[j]))
    && (forall i | 0 <= i < |indexes| :: HasColumns(columns, indexes[i].columnIds))
  }

  ghost predicate AreKeys(keys: seq<ForeignKey>, columns: seq<Column>)
  {
    && (forall i, j | 0 <= i < j < |keys| :: keys[i].id != keys[j].id)
    && (forall i, j | 0 <= i < j < |keys| :: keys[i].name != keys[j].name)
    && (forall i | 0 <= i < |keys| :: HasColumns(columns, keys[i].columnIds))
  }

  ghost predicate IsTable(t: Table)
  {
    AreColumns(t.columns) && AreIndexes(t.indexes, t.columns) && AreKeys(t.foreignKeys, t.columns)
  }

  // ---- what is reported unmodified ----

  predicate IsKeptIndex(other: seq<Index>, x: Index)
  {
    var p := IndexById(other, x.id); p.Some? && !IndexDiffers(p.value, x)
  }

  predicate IsKeptKey(other: seq<ForeignKey>, k: ForeignKey)
  {
    var p := ForeignKeyById(other, k.id); p.Some? && !ForeignKeyDiffers(p.value, k)
  }

  /** The index the server ends up with: the old one when reported unmodified. */
  function FinalIndex(prev: seq<Index>, x: Index): ServerIndex
  {
    if IsKeptIndex(prev, x) then ToServerIndex(IndexById(prev, x.id).value) else ToServerIndex(x)
  }

  function FinalKey(prev: seq<ForeignKey>, k: ForeignKey): ServerKey
  {
    if IsKeptKey(prev, k) then ToServerKey(ForeignKeyById(prev, k.id).value) else ToServerKey(k)
  }

  // ---- lookups ----

  lemma IndexByIdAt(indexes: seq<Index>, i: nat)
    requires forall i, j | 0 <= i < j < |indexes| :: indexes[i].id != indexes[j].id
    requires i < |indexes|
    ensures IndexById(indexes, indexes[i].id) == Some(indexes[i])
  {
    assert indexes[i] in indexes;
    var x := IndexById(indexes, indexes[i].id);
    var j :| 0 <= j < |indexes| && indexes[j] == x.value;
    assert j == i;
  }

  lemma KeyByIdAt(keys: seq<ForeignKey>, i: nat)
    requires forall i, j | 0 <= i < j < |keys| :: keys[i].id != keys[j].id
    requires i < |keys|
    ensures ForeignKeyById(keys, keys[i].id) == Some(keys[i])
  {
    assert keys[i] in keys;
    var x := ForeignKeyById(keys, keys[i].id);
    var j :| 0 <= j < |keys| && keys[j] == x.value;
    assert j == i;
  }

  lemma {:induction false} PublishedIndexes(indexes: seq<Index>, columns: seq<Column>, i: nat)
    requires AreIndexes(indexes, columns) && i <= |indexes|
    ensures var m := PublishIndexes(indexes, i);
            && (forall k | i <= k < |indexes| && indexes[k].columnIds != [] ::
                  NameOfIndex(indexes[k]) in m && m[NameOfIndex(indexes[k])] == ToServerIndex(indexes[k]))
            && (forall name | name in m ::
                  exists k | i <= k < |indexes| :: indexes[k].columnIds != [] && NameOfIndex(indexes[k]) == name)
    decreases |indexes| - i
  {
    if i < |indexes| {
      PublishedIndexes(indexes, columns, i + 1);
    }
  }

  lemma {:induction false} PublishedKeys(keys: seq<ForeignKey>, columns: seq<Column>, i: nat)
    requires AreKeys(keys, columns) && i <= |keys|
    ensures var m := PublishKeys(keys, i);
            && (forall k | i <= k < |keys| :: keys[k].name in m && m[keys[k].name] == ToServerKey(keys[k]))
            && (forall name | name in m :: exists k | i <= k < |keys| :: keys[k].name == name)
    decreases |keys| - i
  {
    if i < |keys| {
      PublishedKeys(keys, columns, i + 1);
    }
  }

  // ---- names resolve to the same columns in the new list ----

  lemma ResolveOne(list: seq<Column>, columns: seq<Column>, id: nat)
    requires AreColumns(columns) && multiset(list) == multiset(Definitions(columns))
    requires ColumnById(columns, id).Some?
    ensures var c := ColumnByName(list, ColumnById(columns, id).value.name); c.Some? && c.value.id == id
  {
    var c := ColumnById(columns, id).value;
    DefinitionsAt(columns);
    var i :| 0 <= i < |columns| && columns[i] == c;
    assert Definition(c) == Definitions(columns)[i];
    assert Definition(c) in multiset(list);
    var found := ColumnByName(list, c.name);
    assert found.value in multiset(Definitions(columns));
    var j :| 0 <= j < |columns| && Definitions(columns)[j] == found.value;
    assert j == i;
  }

  lemma {:induction false} ResolveIds(list: seq<Column>, columns: seq<Column>, ids: seq<nat>)
    requires AreColumns(columns) && multiset(list) == multiset(Definitions(columns))
    requires HasColumns(columns, ids)
    ensures ResolveNames(list, ColumnNames(columns, ids)) == Some(ids)
    decreases ids
  {
    if ids != [] {
      ResolveOne(list, columns, ids[0]);
      ResolveIds(list, columns, ids[1..]);
      var names := ColumnNames(columns, ids);
      assert names[1..] == ColumnNames(columns, ids[1..]);
      assert ids == [ids[0]] + ids[1..];
    }
  }

  /** A column of the table is in every permutation of its definitions. */
  lemma StillThere(list: seq<Column>, columns: seq<Column>, ids: seq<nat>)
    requires multiset(list) == multiset(Definitions(columns)) && HasColumns(columns, ids)
    ensures HasColumns(list, ids)
  {
    DefinitionsAt(columns);
    forall id | id in ids
      ensures ColumnById(list, id).Some?
    {
      var c := ColumnById(columns, id).value;
      var i :| 0 <= i < |columns| && columns[i] == c;
      assert Definitions(columns)[i] in multiset(list);
    }
  }

  lemma {:induction false} AllSurvive(ids: seq<nat>, columns: seq<Column>)
    requires HasColumns(columns, ids)
    ensures SurvivingIds(ids, columns) == ids
  {
    if ids != [] {
      assert ids[0] in ids;
      AllSurvive(ids[1..], columns);
    }
  }

  // ---- indexes ----

  lemma {:induction false} RemovedIndexesAre(prev: seq<Index>, curr: seq<Index>, i: nat, x: Index)
    requires i <= |prev|
    ensures x in RemovedIndexesFrom(prev, curr, i) <==>
            IndexById(curr, x.id).None? && exists k | i <= k < |prev| :: prev[k] == x
    decreases |prev| - i
  {
    if i < |prev| {
      RemovedIndexesAre(prev, curr, i + 1, x);
    }
  }

  lemma DroppedUnion(a: seq<IndexSpec>, b: seq<IndexSpec>)
    ensures DroppedIndexes(a + b) == DroppedIndexes(a) + DroppedIndexes(b)
  {
    forall x | x in a || x in b
      ensures x in a + b
    {
    }
  }

  lemma {:induction false} DropSpecsDrop(removed: seq<Index>, i: nat, name: IndexName)
    requires i <= |removed|
    ensures name in DroppedIndexes(DropIndexSpecs(removed, i)) <==>
            exists k | i <= k < |removed| :: NameOfIndex(removed[k]) == name
    decreases |removed| - i
  {
    if i < |removed| {
      DropSpecsDrop(removed, i + 1, name);
      var x := DropIndex(NameOfIndex(removed[i]));
      DroppedUnion([x], DropIndexSpecs(removed, i + 1));
      assert x in [x];
    }
  }

  lemma {:induction false} StatusAt(prev: seq<Index>, curr: seq<Index>, i: nat, k: nat)
    requires i <= k <= |curr|
    ensures |IndexStatuses(prev, curr, i)| == |curr| - i
    ensures k < |curr| ==> IndexStatuses(prev, curr, i)[k - i] == StatusOfIndex(prev, curr[k])
    decreases |curr| - i
  {
    if i < |curr| {
      StatusAt(prev, curr, i + 1, if i < k then k else i + 1);
    }
  }

  lemma StatusesAre(prev: seq<Index>, curr: seq<Index>)
    ensures AreStatuses(IndexStatuses(prev, curr, 0), prev, curr)
  {
    StatusAt(prev, curr, 0, 0);
    forall k | 0 <= k < |curr|
      ensures IndexStatuses(prev, curr, 0)[k] == StatusOfIndex(prev, curr[k])
    {
      StatusAt(prev, curr, 0, k);
    }
  }

  lemma {:induction false} ChangedSpecsDrop(columns: seq<Column>, statuses: seq<IndexStatus>, i: nat, name: IndexName)
    requires i <= |statuses|
    ensures name in DroppedIndexes(ChangedIndexSpecs(columns, statuses, i)) <==>
            exists k | i <= k < |statuses| :: IsDroppedFor(statuses[k], name)
    decreases |statuses| - i
  {
    if i < |statuses| {
      ChangedSpecsDrop(columns, statuses, i + 1, name);
      EitherDrops(IndexSpecsOf(columns, statuses[i]), ChangedIndexSpecs(columns, statuses, i + 1), name);
      OneStatusDrops(columns, statuses[i], name);
    }
  }

  lemma EitherDrops(a: seq<IndexSpec>, b: seq<IndexSpec>, name: IndexName)
    ensures name in DroppedIndexes(a + b) <==> name in DroppedIndexes(a) || name in DroppedIndexes(b)
  {
    DroppedUnion(a, b);
  }

  /** A modified index is dropped by its old name. */
  predicate IsDroppedFor(s: IndexStatus, name: IndexName)
  {
    s.modified && s.oldIndex.Some? && NameOfIndex(s.oldIndex.value) == name
  }

  lemma OneStatusDrops(columns: seq<Column>, s: IndexStatus, name: IndexName)
    ensures name in DroppedIndexes(IndexSpecsOf(columns, s)) <==> IsDroppedFor(s, name)
  {
    if s.modified && s.oldIndex.Some? {
      assert DropIndex(NameOfIndex(s.oldIndex.value)) in IndexSpecsOf(columns, s);
    }
  }

  lemma IsRemovedName(prev: seq<Index>, curr: seq<Index>, name: IndexName)
    ensures name in DroppedIndexes(DropIndexSpecs(RemovedIndexesFrom(prev, curr, 0), 0)) <==>
            exists k | 0 <= k < |prev| :: NameOfIndex(prev[k]) == name && IndexById(curr, prev[k].id).None?
  {
    var removed := RemovedIndexesFrom(prev, curr, 0);
    DropSpecsDrop(removed, 0, name);
    if k :| 0 <= k < |removed| && NameOfIndex(removed[k]) == name {
      RemovedIndexesAre(prev, curr, 0, removed[k]);
    }
    if k :| 0 <= k < |prev| && NameOfIndex(prev[k]) == name && IndexById(curr, prev[k].id).None? {
      RemovedIndexesAre(prev, curr, 0, prev[k]);
      var j :| 0 <= j < |removed| && removed[j] == prev[k];
    }
  }

  lemma IsChangedName(columns: seq<Column>, prev: seq<Index>, curr: seq<Index>, name: IndexName)
    ensures name in DroppedIndexes(ChangedIndexSpecs(columns, IndexStatuses(prev, curr, 0), 0)) <==>
            exists k | 0 <= k < |curr| ::
              StatusOfIndex(prev, curr[k]).modified && NameOfIndex(StatusOfIndex(prev, curr[k]).oldIndex.value) == name
  {
    var statuses := IndexStatuses(prev, curr, 0);
    StatusesAre(prev, curr);
    ChangedSpecsDrop(columns, statuses, 0, name);
    if k :| 0 <= k < |curr| && StatusOfIndex(prev, curr[k]).modified
            && NameOfIndex(StatusOfIndex(prev, curr[k]).oldIndex.value) == name {
      assert IsDroppedFor(statuses[k], name);
    }
    if k :| 0 <= k < |statuses| && IsDroppedFor(statuses[k], name) {
      assert StatusOfIndex(prev, curr[k]).modified;
    }
  }

  /** The statement drops exactly the old indexes that are modified or removed. */
  lemma ChangedIsNotKept(prev: Table, curr: Table, k: nat)
    requires IsTable(prev) && IsTable(curr)
    requires k < |curr.indexes| && StatusOfIndex(prev.indexes, curr.indexes[k]).modified
    ensures var o := StatusOfIndex(prev.indexes, curr.indexes[k]).oldIndex.value;
            o in prev.indexes && !IsKeptIndex(curr.indexes, o)
  {
    IndexByIdAt(curr.indexes, k);
  }

  lemma NotKeptIsDropped(prev: Table, curr: Table, k: nat)
    requires IsTable(prev) && IsTable(curr)
    requires k < |prev.indexes| && !IsKeptIndex(curr.indexes, prev.indexes[k])
    ensures NameOfIndex(prev.indexes[k]) in DroppedIndexes(AllIndexSpecs(prev, curr))
  {
    var name := NameOfIndex(prev.indexes[k]);
    IndexByIdAt(prev.indexes, k);
    IsRemovedName(prev.indexes, curr.indexes, name);
    IsChangedName(curr.columns, prev.indexes, curr.indexes, name);
    var c := IndexById(curr.indexes, prev.indexes[k].id);
    if c.Some? {
      var j :| 0 <= j < |curr.indexes| && curr.indexes[j] == c.value;
      assert StatusOfIndex(prev.indexes, curr.indexes[j]).modified;
    }
    DroppedUnion(DropIndexSpecs(RemovedIndexesFrom(prev.indexes, curr.indexes, 0), 0),
                 ChangedIndexSpecs(curr.columns, IndexStatuses(prev.indexes, curr.indexes, 0), 0));
  }

  lemma DroppedIffNotKept(prev: Table, curr: Table, name: IndexName)
    requires IsTable(prev) && IsTable(curr)
    ensures name in DroppedIndexes(AllIndexSpecs(prev, curr)) <==>
            exists k | 0 <= k < |prev.indexes| :: NameOfIndex(prev.indexes[k]) == name
              && !IsKeptIndex(curr.indexes, prev.indexes[k])
  {
    DroppedUnion(DropIndexSpecs(RemovedIndexesFrom(prev.indexes, curr.indexes, 0), 0),
                 ChangedIndexSpecs(curr.columns, IndexStatuses(prev.indexes, curr.indexes, 0), 0));
    IsRemovedName(prev.indexes, curr.indexes, name);
    IsChangedName(curr.columns, prev.indexes, curr.indexes, name);
    if k :| 0 <= k < |curr.indexes| && StatusOfIndex(prev.indexes, curr.indexes[k]).modified
            && NameOfIndex(StatusOfIndex(prev.indexes, curr.indexes[k]).oldIndex.value) == name {
      ChangedIsNotKept(prev, curr, k);
    }
    if k :|
      0 <= k < |prev.indexes| && NameOfIndex(prev.indexes[k]) == name
      && !IsKeptIndex(curr.indexes, prev.indexes[k]) {
      NotKeptIsDropped(prev, curr, k);
    }
  }

  /** The indexes after the first i indexes of the new version were dealt with. */
  ghost predicate IndexesUpTo(m: map<IndexName, ServerIndex>, prev: seq<Index>, curr: seq<Index>, i: nat)
  {
    && (forall k | 0 <= k < |curr| && curr[k].columnIds != [] && (k < i || IsKeptIndex(prev, curr[k])) ::
          NameOfIndex(curr[k]) in m && m[NameOfIndex(curr[k])] == FinalIndex(prev, curr[k]))
    && (forall name | name in m :: IsPublishedName(prev, curr, i, name))
  }

  /** The name of an index with columns that is unmodified or among the first i. */
  ghost predicate IsPublishedName(prev: seq<Index>, curr: seq<Index>, i: nat, name: IndexName)
  {
    exists k | 0 <= k < |curr| ::
      curr[k].columnIds != [] && (k < i || IsKeptIndex(prev, curr[k])) && NameOfIndex(curr[k]) == name
  }

  /** After dropping, exactly the unmodified indexes are left, as they were. */
  lemma KeptIndexesStay(prev: Table, curr: Table, list: seq<Column>)
    requires IsTable(prev) && IsTable(curr) && forall x | x in prev.indexes :: x.columnIds != []
    requires multiset(list) == multiset(Definitions(curr.columns))
    ensures var dropped := DroppedIndexes(AllIndexSpecs(prev, curr));
            && dropped <= PublishIndexes(prev.indexes, 0).Keys
            && IndexesUpTo(SurvivingIndexes(PublishIndexes(prev.indexes, 0), list) - dropped, prev.indexes,
               curr.indexes, 0)
  {
    var published := PublishIndexes(prev.indexes, 0);
    var dropped := DroppedIndexes(AllIndexSpecs(prev, curr));
    var m := SurvivingIndexes(published, list) - dropped;
    PublishedIndexes(prev.indexes, prev.columns, 0);
    forall name | name in dropped
      ensures name in published
    {
      DroppedIffNotKept(prev, curr, name);
    }
    forall k | 0 <= k < |curr.indexes| && IsKeptIndex(prev.indexes, curr.indexes[k])
      ensures NameOfIndex(curr.indexes[k]) in m
              && m[NameOfIndex(curr.indexes[k])] == FinalIndex(prev.indexes, curr.indexes[k])
    {
      KeptIndexStays(prev, curr, list, k);
    }
    forall name | name in m
      ensures IsPublishedName(prev.indexes, curr.indexes, 0, name)
    {
      SurvivorIsKept(prev, curr, name);
    }
  }

  lemma SurvivorIsKept(prev: Table, curr: Table, name: IndexName)
    requires IsTable(prev) && IsTable(curr) && forall x | x in prev.indexes :: x.columnIds != []
    requires name in PublishIndexes(prev.indexes, 0) && name !in DroppedIndexes(AllIndexSpecs(prev, curr))
    ensures IsPublishedName(prev.indexes, curr.indexes, 0, name)
  {
    PublishedIndexes(prev.indexes, prev.columns, 0);
    DroppedIffNotKept(prev, curr, name);
    var j :| 0 <= j < |prev.indexes| && NameOfIndex(prev.indexes[j]) == name;
    KeptIndexIsFound(prev, curr, j);
  }

  lemma KeptIndexIsFound(prev: Table, curr: Table, j: nat)
    requires IsTable(prev) && IsTable(curr) && forall x | x in prev.indexes :: x.columnIds != []
    requires j < |prev.indexes| && IsKeptIndex(curr.indexes, prev.indexes[j])
    ensures exists k | 0 <= k < |curr.indexes| ::
              curr.indexes[k].columnIds != [] && IsKeptIndex(prev.indexes, curr.indexes[k])
              && NameOfIndex(curr.indexes[k]) == NameOfIndex(prev.indexes[j])
  {
    var y := prev.indexes[j];
    var x := IndexById(curr.indexes, y.id).value;
    IndexByIdAt(prev.indexes, j);
    assert y in prev.indexes && y.columnIds[0] in ToSet(x.columnIds);
    var k :| 0 <= k < |curr.indexes| && curr.indexes[k] == x;
  }

  lemma KeptIndexStays(prev: Table, curr: Table, list: seq<Column>, k: nat)
    requires IsTable(prev) && IsTable(curr) && forall x | x in prev.indexes :: x.columnIds != []
    requires multiset(list) == multiset(Definitions(curr.columns))
    requires k < |curr.indexes| && IsKeptIndex(prev.indexes, curr.indexes[k])
    ensures var m := SurvivingIndexes(PublishIndexes(prev.indexes, 0), list)
                     - DroppedIndexes(AllIndexSpecs(prev, curr));
            var name := NameOfIndex(curr.indexes[k]);
            name in m && m[name] == FinalIndex(prev.indexes, curr.indexes[k])
  {
    var x := curr.indexes[k];
    var y := IndexById(prev.indexes, x.id).value;
    var j :| 0 <= j < |prev.indexes| && prev.indexes[j] == y;
    PublishedIndexes(prev.indexes, prev.columns, 0);
    IndexByIdAt(curr.indexes, k);
    assert NameOfIndex(x) == NameOfIndex(y);
    forall id | id in y.columnIds
      ensures ColumnById(curr.columns, id).Some?
    {
      assert id in ToSet(x.columnIds);
    }
    StillThere(list, curr.columns, y.columnIds);
    AllSurvive(y.columnIds, list);
    NotDropped(prev, curr, j);
  }

  lemma NotDropped(prev: Table, curr: Table, j: nat)
    requires IsTable(prev) && IsTable(curr) && forall x | x in prev.indexes :: x.columnIds != []
    requires j < |prev.indexes| && IsKeptIndex(curr.indexes, prev.indexes[j])
    ensures NameOfIndex(prev.indexes[j]) !in DroppedIndexes(AllIndexSpecs(prev, curr))
  {
    DroppedIffNotKept(prev, curr, NameOfIndex(prev.indexes[j]));
    forall i | 0 <= i < |prev.indexes| && NameOfIndex(prev.indexes[i]) == NameOfIndex(prev.indexes[j])
      ensures i == j
    {
      assert prev.indexes[i] in prev.indexes && prev.indexes[j] in prev.indexes;
    }
  }

  lemma {:induction false} DropsAreSkipped(m: map<IndexName, ServerIndex>, removed: seq<Index>, i: nat,
                                           rest: seq<IndexSpec>, list: seq<Column>)
    requires i <= |removed|
    ensures AddIndexes(m, DropIndexSpecs(removed, i) + rest, list) == AddIndexes(m, rest, list)
    decreases |removed| - i
  {
    if i == |removed| {
      assert DropIndexSpecs(removed, i) + rest == rest;
    } else {
      var specs := DropIndexSpecs(removed, i) + rest;
      assert specs[0] == DropIndex(NameOfIndex(removed[i]));
      assert specs[1..] == DropIndexSpecs(removed, i + 1) + rest;
      DropsAreSkipped(m, removed, i + 1, rest, list);
    }
  }

  /** Skipping a drop and taking an addition at the front of the list. */
  lemma OneStatusAdds(m: map<IndexName, ServerIndex>, columns: seq<Column>, s: IndexStatus, rest: seq<IndexSpec>,
                      list: seq<Column>)
    requires ResolveNames(list, ColumnNames(columns, s.newIndex.columnIds)) == Some(s.newIndex.columnIds)
    ensures var adds := (s.added || s.modified) && s.newIndex.columnIds != [];
            var name := NameOfIndex(s.newIndex);
            && (!adds ==> AddIndexes(m, IndexSpecsOf(columns, s) + rest, list) == AddIndexes(m, rest, list))
            && (adds && name !in m ==>
                  AddIndexes(m, IndexSpecsOf(columns, s) + rest, list)
                    == AddIndexes(m[name := ToServerIndex(s.newIndex)], rest, list))
  {
    var drops := if s.modified && s.oldIndex.Some? then [DropIndex(NameOfIndex(s.oldIndex.value))] else [];
    var adds := if (s.added || s.modified) && s.newIndex.columnIds != []
                then [AddIndexSpec(columns, s.newIndex)] else [];
    var specs := IndexSpecsOf(columns, s) + rest;
    assert specs == drops + (adds + rest);
    if drops != [] {
      assert specs[0] == drops[0] && specs[1..] == adds + rest;
    } else {
      assert specs == adds + rest;
    }
    if adds != [] {
      assert (adds + rest)[0] == adds[0] && (adds + rest)[1..] == rest;
    } else {
      assert adds + rest == rest;
    }
  }

  /** The column names printed for the indexes resolve to their columns in the new list. */
  ghost predicate IndexesResolve(indexes: seq<Index>, columns: seq<Column>, list: seq<Column>)
  {
    forall k | 0 <= k < |indexes| ::
      ResolveNames(list, ColumnNames(columns, indexes[k].columnIds)) == Some(indexes[k].columnIds)
  }

  ghost predicate AreStatuses(statuses: seq<IndexStatus>, prev: seq<Index>, curr: seq<Index>)
  {
    |statuses| == |curr| && forall k | 0 <= k < |statuses| :: statuses[k] == StatusOfIndex(prev, curr[k])
  }

  lemma {:induction false} ChangedIndexesAdded(m: map<IndexName, ServerIndex>, prev: seq<Index>, curr: seq<Index>,
                                               columns: seq<Column>, list: seq<Column>, statuses: seq<IndexStatus>,
                                                 i: nat)
    requires AreIndexes(curr, columns) && IndexesResolve(curr, columns, list) && AreStatuses(statuses, prev, curr)
    requires i <= |curr| && IndexesUpTo(m, prev, curr, i)
    ensures AddIndexes(m, ChangedIndexSpecs(columns, statuses, i), list).Some?
    ensures IndexesUpTo(AddIndexes(m, ChangedIndexSpecs(columns, statuses, i), list).value, prev, curr, |curr|)
    decreases |curr| - i
  {
    if i < |curr| {
      var x := curr[i];
      var next := if !IsKeptIndex(prev, x) && x.columnIds != [] then m[NameOfIndex(x) := ToServerIndex(x)] else m;
      NextIndex(m, prev, curr, columns, i, next);
      ChangedIndexesAdded(next, prev, curr, columns, list, statuses, i + 1);
      StatusAddsNext(m, prev, curr, columns, list, statuses, i, next);
    }
  }

  lemma StatusAddsNext(m: map<IndexName, ServerIndex>, prev: seq<Index>, curr: seq<Index>, columns: seq<Column>,
                       list: seq<Column>,
                       statuses: seq<IndexStatus>, i: nat, next: map<IndexName, ServerIndex>)
    requires IndexesResolve(curr, columns, list) && AreStatuses(statuses, prev, curr) && i < |curr|
    requires var x := curr[i];
             if !IsKeptIndex(prev, x) && x.columnIds != []
             then NameOfIndex(x) !in m && next == m[NameOfIndex(x) := ToServerIndex(x)] else next == m
    ensures AddIndexes(m, ChangedIndexSpecs(columns, statuses, i), list)
         == AddIndexes(next, ChangedIndexSpecs(columns, statuses, i + 1), list)
  {
    OneStatusAdds(m, columns, statuses[i], ChangedIndexSpecs(columns, statuses, i + 1), list);
  }

  lemma NameIsNew(m: map<IndexName, ServerIndex>, prev: seq<Index>, curr: seq<Index>, columns: seq<Column>, i: nat)
    requires AreIndexes(curr, columns) && i < |curr| && IndexesUpTo(m, prev, curr, i)
    ensures !IsKeptIndex(prev, curr[i]) && curr[i].columnIds != [] ==> NameOfIndex(curr[i]) !in m
  {
    if NameOfIndex(curr[i]) in m {
      assert IsPublishedName(prev, curr, i, NameOfIndex(curr[i]));
    }
  }

  lemma NextIndex(m: map<IndexName, ServerIndex>, prev: seq<Index>, curr: seq<Index>, columns: seq<Column>, i: nat,
                  next: map<IndexName, ServerIndex>)
    requires AreIndexes(curr, columns) && i < |curr| && IndexesUpTo(m, prev, curr, i)
    requires var x := curr[i];
             next == if !IsKeptIndex(prev, x) && x.columnIds != [] then m[NameOfIndex(x) := ToServerIndex(x)] else m
    ensures !IsKeptIndex(prev, curr[i]) && curr[i].columnIds != [] ==> NameOfIndex(curr[i]) !in m
    ensures IndexesUpTo(next, prev, curr, i + 1)
  {
    NameIsNew(m, prev, curr, columns, i);
    forall name | name in next
      ensures IsPublishedName(prev, curr, i + 1, name)
    {
      if name in m {
        StaysPublished(prev, curr, i, name);
      } else {
        assert name == NameOfIndex(curr[i]);
      }
    }
  }

  lemma StaysPublished(prev: seq<Index>, curr: seq<Index>, i: nat, name: IndexName)
    requires IsPublishedName(prev, curr, i, name)
    ensures IsPublishedName(prev, curr, i + 1, name)
  {
  }

  lemma IndexReplay(prev: Table, curr: Table, list: seq<Column>)
    requires IsTable(prev) && IsTable(curr) && forall x | x in prev.indexes :: x.columnIds != []
    requires multiset(list) == multiset(Definitions(curr.columns))
    ensures var r := NewIndexes(PublishIndexes(prev.indexes, 0), AllIndexSpecs(prev, curr), list);
            r.Some? && IndexesUpTo(r.value, prev.indexes, curr.indexes, |curr.indexes|)
  {
    KeptIndexesStay(prev, curr, list);
    var m := SurvivingIndexes(PublishIndexes(prev.indexes, 0), list) - DroppedIndexes(AllIndexSpecs(prev, curr));
    StatusesAre(prev.indexes, curr.indexes);
    forall k | 0 <= k < |curr.indexes|
      ensures ResolveNames(list, ColumnNames(curr.columns, curr.indexes[k].columnIds))
              == Some(curr.indexes[k].columnIds)
    {
      ResolveIds(list, curr.columns, curr.indexes[k].columnIds);
    }
    ChangedIndexesAdded(m, prev.indexes, curr.indexes, curr.columns, list,
      IndexStatuses(prev.indexes, curr.indexes, 0), 0);
    DropsAreSkipped(m, RemovedIndexesFrom(prev.indexes, curr.indexes, 0), 0,
                    ChangedIndexSpecs(curr.columns, IndexStatuses(prev.indexes, curr.indexes, 0), 0), list);
  }
}
