/** TableEntityComparator: what changed between two versions of a table, objects of
    both being paired by id.
 */
module TableEntityComparator {
  import opened QtStrings
  import opened Schema

  datatype ColumnStatus = ColumnStatus(oldCol: Option<Column>, newCol: Column, modified: bool, added: bool)

  datatype IndexStatus = IndexStatus(oldIndex: Option<Index>, newIndex: Index, modified: bool, added: bool)

  datatype ForeignKeyPair = ForeignKeyPair(oldKey: ForeignKey, newKey: ForeignKey)

  function StatusOfColumn(prev: seq<Column>, c: Column): ColumnStatus
  {
    var p := ColumnById(prev, c.id);
    ColumnStatus(p, c, p.Some? && ColumnDiffers(p.value, c), p.None?)
  }

  function StatusOfIndex(prev: seq<Index>, x: Index): IndexStatus
  {
    var p := IndexById(prev, x.id);
    IndexStatus(p, x, p.Some? && IndexDiffers(p.value, x), p.None?)
  }

  predicate IsModifiedKey(prev: seq<ForeignKey>, k: ForeignKey)
  {
    var p := ForeignKeyById(prev, k.id); p.Some? && ForeignKeyDiffers(p.value, k)
  }

  /** Kept columns are in both versions without a difference. */
  predicate IsKept(other: seq<Column>, c: Column)
  {
    var p := ColumnById(other, c.id); p.Some? && !ColumnDiffers(p.value, c)
  }

  // ---- the lists, from an index on ----

  function ColumnStatuses(prev: seq<Column>, curr: seq<Column>, i: nat): seq<ColumnStatus>
    requires i <= |curr|
    decreases |curr| - i
  {
    if i == |curr| then [] else [StatusOfColumn(prev, curr[i])] + ColumnStatuses(prev, curr, i + 1)
  }

  function RemovedColumnsFrom(prev: seq<Column>, curr: seq<Column>, i: nat): seq<Column>
    requires i <= |prev|
    decreases |prev| - i
  {
    if i == |prev| then []
    else if ColumnById(curr, prev[i].id).None? then [prev[i]] + RemovedColumnsFrom(prev, curr, i + 1)
    else RemovedColumnsFrom(prev, curr, i + 1)
  }

  function ModifiedColumnsFrom(prev: seq<Column>, curr: seq<Column>, i: nat): seq<ColumnStatus>
    requires i <= |curr|
    decreases |curr| - i
  {
    if i == |curr| then []
    else if StatusOfColumn(prev, curr[i]).modified then
      [StatusOfColumn(prev, curr[i])] + ModifiedColumnsFrom(prev, curr, i + 1)
    else ModifiedColumnsFrom(prev, curr, i + 1)
  }

  function IndexStatuses(prev: seq<Index>, curr: seq<Index>, i: nat): seq<IndexStatus>
    requires i <= |curr|
    decreases |curr| - i
  {
    if i == |curr| then [] else [StatusOfIndex(prev, curr[i])] + IndexStatuses(prev, curr, i + 1)
  }

  function RemovedIndexesFrom(prev: seq<Index>, curr: seq<Index>, i: nat): seq<Index>
    requires i <= |prev|
    decreases |prev| - i
  {
    if i == |prev| then []
    else if IndexById(curr, prev[i].id).None? then [prev[i]] + RemovedIndexesFrom(prev, curr, i + 1)
    else RemovedIndexesFrom(prev, curr, i + 1)
  }

  function RemovedKeysFrom(prev: seq<ForeignKey>, curr: seq<ForeignKey>, i: nat): seq<ForeignKey>
    requires i <= |prev|
    decreases |prev| - i
  {
    if i == |prev| then []
    else if ForeignKeyById(curr, prev[i].id).None? then [prev[i]] + RemovedKeysFrom(prev, curr, i + 1)
    else RemovedKeysFrom(prev, curr, i + 1)
  }

  function ModifiedKeysFrom(prev: seq<ForeignKey>, curr: seq<ForeignKey>, i: nat): seq<ForeignKeyPair>
    requires i <= |curr|
    decreases |curr| - i
  {
    if i == |curr| then []
    else if IsModifiedKey(prev, curr[i]) then
      [ForeignKeyPair(ForeignKeyById(prev, curr[i].id).value, curr[i])] + ModifiedKeysFrom(prev, curr, i + 1)
    else ModifiedKeysFrom(prev, curr, i + 1)
  }

  // ---- the comparator's loops ----

  method FindColumnById(columns: seq<Column>, id: nat) returns (c: Option<Column>)
    ensures c == ColumnById(columns, id)
  {
    for i := 0 to |columns|
      invariant ColumnById(columns[i..], id) == ColumnById(columns, id)
    {
      if columns[i].id == id {
        return Some(columns[i]);
      }
      assert columns[i..][1..] == columns[i + 1..];
    }
    return None;
  }

  method CurrColumnsWithStatus(prev: seq<Column>, curr: seq<Column>) returns (columns: seq<ColumnStatus>)
    ensures columns == ColumnStatuses(prev, curr, 0)
    ensures |columns| == |curr| && forall i | 0 <= i < |curr| :: columns[i] == StatusOfColumn(prev, curr[i])
  {
    columns := [];
    for i := 0 to |curr|
      invariant |columns| == i && forall k | 0 <= k < i :: columns[k] == StatusOfColumn(prev, curr[k])
      invariant columns + ColumnStatuses(prev, curr, i) == ColumnStatuses(prev, curr, 0)
    {
      var oldColumn := FindColumnById(prev, curr[i].id);
      var status := ColumnStatus(oldColumn, curr[i], false, false);
      if oldColumn.Some? {
        if ColumnDiffers(oldColumn.value, curr[i]) {
          status := status.(modified := true);
        }
      } else {
        status := status.(added := true);
      }
      AppendOne(columns, status, ColumnStatuses(prev, curr, i + 1));
      columns := columns + [status];
    }
  }

  method ModifiedColumns(prev: seq<Column>, curr: seq<Column>) returns (modified: seq<ColumnStatus>)
    ensures modified == ModifiedColumnsFrom(prev, curr, 0)
  {
    modified := [];
    for i := 0 to |curr|
      invariant modified + ModifiedColumnsFrom(prev, curr, i) == ModifiedColumnsFrom(prev, curr, 0)
    {
      var oldColumn := FindColumnById(prev, curr[i].id);
      if oldColumn.Some? && ColumnDiffers(oldColumn.value, curr[i]) {
        var pair := ColumnStatus(oldColumn, curr[i], true, false);
        AppendOne(modified, pair, ModifiedColumnsFrom(prev, curr, i + 1));
        modified := modified + [pair];
      }
    }
  }

  method RemovedColumns(prev: seq<Column>, curr: seq<Column>) returns (removed: seq<Column>)
    ensures removed == RemovedColumnsFrom(prev, curr, 0)
  {
    removed := [];
    for i := 0 to |prev|
      invariant removed + RemovedColumnsFrom(prev, curr, i) == RemovedColumnsFrom(prev, curr, 0)
    {
      var newColumn := FindColumnById(curr, prev[i].id);
      if newColumn.None? {
        AppendOne(removed, prev[i], RemovedColumnsFrom(prev, curr, i + 1));
        removed := removed + [prev[i]];
      }
    }
  }

  method RemovedIndices(prev: seq<Index>, curr: seq<Index>) returns (removed: seq<Index>)
    ensures removed == RemovedIndexesFrom(prev, curr, 0)
  {
    removed := [];
    for i := 0 to |prev|
      invariant removed + RemovedIndexesFrom(prev, curr, i) == RemovedIndexesFrom(prev, curr, 0)
    {
      if IndexById(curr, prev[i].id).None? {
        AppendOne(removed, prev[i], RemovedIndexesFrom(prev, curr, i + 1));
        removed := removed + [prev[i]];
      }
    }
  }

  method CurrIndicesWithStatus(prev: seq<Index>, curr: seq<Index>) returns (indices: seq<IndexStatus>)
    ensures indices == IndexStatuses(prev, curr, 0)
    ensures |indices| == |curr| && forall i | 0 <= i < |curr| :: indices[i] == StatusOfIndex(prev, curr[i])
  {
    indices := [];
    for i := 0 to |curr|
      invariant |indices| == i && forall k | 0 <= k < i :: indices[k] == StatusOfIndex(prev, curr[k])
      invariant indices + IndexStatuses(prev, curr, i) == IndexStatuses(prev, curr, 0)
    {
      var oldIndex := IndexById(prev, curr[i].id);
      var status := IndexStatus(oldIndex, curr[i], false, false);
      if oldIndex.Some? {
        var differs := IndexDataDiffers(oldIndex.value, curr[i]);
        status := status.(modified := differs);
      } else {
        status := status.(added := true);
      }
      AppendOne(indices, status, IndexStatuses(prev, curr, i + 1));
      indices := indices + [status];
    }
  }

  method RemovedForeignKeys(prev: seq<ForeignKey>, curr: seq<ForeignKey>) returns (removed: seq<ForeignKey>)
    ensures removed == RemovedKeysFrom(prev, curr, 0)
  {
    removed := [];
    for i := 0 to |prev|
      invariant removed + RemovedKeysFrom(prev, curr, i) == RemovedKeysFrom(prev, curr, 0)
    {
      if ForeignKeyById(curr, prev[i].id).None? {
        AppendOne(removed, prev[i], RemovedKeysFrom(prev, curr, i + 1));
        removed := removed + [prev[i]];
      }
    }
  }

  /** Added keys are those removed when the versions change places. */
  method AddedForeignKeys(prev: seq<ForeignKey>, curr: seq<ForeignKey>) returns (added: seq<ForeignKey>)
    ensures added == RemovedKeysFrom(curr, prev, 0)
  {
    added := RemovedForeignKeys(curr, prev);
  }

  method ModifiedForeignKeys(prev: seq<ForeignKey>, curr: seq<ForeignKey>) returns (modified: seq<ForeignKeyPair>)
    ensures modified == ModifiedKeysFrom(prev, curr, 0)
  {
    modified := [];
    for i := 0 to |curr|
      invariant modified + ModifiedKeysFrom(prev, curr, i) == ModifiedKeysFrom(prev, curr, 0)
    {
      var oldKey := ForeignKeyById(prev, curr[i].id);
      if oldKey.Some? && ForeignKeyDiffers(oldKey.value, curr[i]) {
        var pair := ForeignKeyPair(oldKey.value, curr[i]);
        AppendOne(modified, pair, ModifiedKeysFrom(prev, curr, i + 1));
        modified := modified + [pair];
      }
    }
  }
}
