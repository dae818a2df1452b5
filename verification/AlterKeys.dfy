/** Replaying the foreign key clauses of an edit gives the new foreign keys. */
module AlterKeys {
  import opened QtStrings
  import opened Schema
  import opened TableEntityComparator
  import opened AlterServer
  import opened MySQLTableEditor
  import opened AlterColumns
  import opened AlterIndexes

  // ---- foreign keys ----

  lemma {:induction false} RemovedKeysAre(prev: seq<ForeignKey>, curr: seq<ForeignKey>, i: nat, x: ForeignKey)
    requires i <= |prev|
    ensures x in RemovedKeysFrom(prev, curr, i) <==>
            ForeignKeyById(curr, x.id).None? && exists k | i <= k < |prev| :: prev[k] == x
    decreases |prev| - i
  {
    if i < |prev| {
      RemovedKeysAre(prev, curr, i + 1, x);
    }
  }

  lemma {:induction false} ModifiedKeysAre(prev: seq<ForeignKey>, curr: seq<ForeignKey>, i: nat, x: ForeignKeyPair)
    requires i <= |curr|
    ensures x in ModifiedKeysFrom(prev, curr, i) <==>
            exists k | i <= k < |curr| ::
              IsModifiedKey(prev, curr[k]) && x == ForeignKeyPair(ForeignKeyById(prev, curr[k].id).value, curr[k])
    decreases |curr| - i
  {
    if i < |curr| {
      ModifiedKeysAre(prev, curr, i + 1, x);
    }
  }

  /** The foreign keys when the unmodified ones and those in done are on the server. */
  ghost predicate KeysWith(m: map<string, ServerKey>, prev: seq<ForeignKey>, curr: seq<ForeignKey>,
                           done: set<ForeignKey>)
  {
    && (forall k | k in curr && (k in done || IsKeptKey(prev, k)) :: k.name in m && m[k.name] == FinalKey(prev, k))
    && (forall name | name in m :: exists k | k in curr :: (k in done || IsKeptKey(prev, k)) && k.name == name)
  }

  /** The column names printed for the keys resolve to their columns in the new list. */
  ghost predicate KeysResolve(keys: seq<ForeignKey>, columns: seq<Column>, list: seq<Column>)
  {
    forall k | k in keys :: ResolveNames(list, ColumnNames(columns, k.columnIds)) == Some(k.columnIds)
  }

  lemma NewNameIsFree(m: map<string, ServerKey>, prev: seq<ForeignKey>, curr: seq<ForeignKey>, columns: seq<Column>,
                      done: set<ForeignKey>, k: ForeignKey)
    requires AreKeys(curr, columns) && k in curr && !IsKeptKey(prev, k) && k !in done
    requires KeysWith(m, prev, curr, done)
    ensures k.name !in m
  {
    var i :| 0 <= i < |curr| && curr[i] == k;
    forall x | x in curr && (x in done || IsKeptKey(prev, x))
      ensures x.name != k.name
    {
      var j :| 0 <= j < |curr| && curr[j] == x;
    }
  }

  lemma OneKeyAdded(m: map<string, ServerKey>, columns: seq<Column>, list: seq<Column>, k: ForeignKey,
                    rest: seq<KeySpec>)
    requires k.name !in m && ResolveNames(list, ColumnNames(columns, k.columnIds)) == Some(k.columnIds)
    ensures AddKeys(m, [AddKeySpec(columns, k)] + rest, list) == AddKeys(m[k.name := ToServerKey(k)], rest, list)
  {
    var specs := [AddKeySpec(columns, k)] + rest;
    assert specs[0] == AddKeySpec(columns, k) && specs[1..] == rest;
  }

  lemma OneMoreKey(m: map<string, ServerKey>, prev: seq<ForeignKey>, curr: seq<ForeignKey>, done: set<ForeignKey>,
                   k: ForeignKey)
    requires KeysWith(m, prev, curr, done) && k in curr && !IsKeptKey(prev, k) && k.name !in m
    ensures KeysWith(m[k.name := ToServerKey(k)], prev, curr, done + {k})
  {
    var next := m[k.name := ToServerKey(k)];
    forall name | name in next
      ensures exists x | x in curr :: (x in done + {k} || IsKeptKey(prev, x)) && x.name == name
    {
      if name in m {
        var x :| x in curr && (x in done || IsKeptKey(prev, x)) && x.name == name;
        assert x in curr && (x in done + {k} || IsKeptKey(prev, x)) && x.name == name;
      } else {
        assert k in curr && k in done + {k} && k.name == name;
      }
    }
  }

  /** Keys from index i on that are still to be added. */
  ghost predicate ToAdd(keys: seq<ForeignKey>, i: nat, prev: seq<ForeignKey>, curr: seq<ForeignKey>,
                        done: set<ForeignKey>)
  {
    && (forall k | i <= k < |keys| :: keys[k] in curr && !IsKeptKey(prev, keys[k]) && keys[k] !in done)
    && Distinct(keys)
  }

  function NewKeysFrom(pairs: seq<ForeignKeyPair>, i: nat): seq<ForeignKey>
    requires i <= |pairs|
    decreases |pairs| - i
  {
    if i == |pairs| then [] else [pairs[i].newKey] + NewKeysFrom(pairs, i + 1)
  }

  lemma {:induction false} NewKeysSize(pairs: seq<ForeignKeyPair>, i: nat)
    requires i <= |pairs|
    ensures |NewKeysFrom(pairs, i)| == |pairs| - i
    decreases |pairs| - i
  {
    if i < |pairs| {
      NewKeysSize(pairs, i + 1);
    }
  }

  lemma {:induction false} NewKeyAt(pairs: seq<ForeignKeyPair>, i: nat, k: nat)
    requires i <= k < |pairs|
    ensures k - i < |NewKeysFrom(pairs, i)| && NewKeysFrom(pairs, i)[k - i] == pairs[k].newKey
    decreases |pairs| - i
  {
    if i < k {
      NewKeyAt(pairs, i + 1, k);
    }
  }

  /** Adding the modified keys again prints the same clauses as adding their new forms. */
  lemma {:induction false} ModifiedAsNew(columns: seq<Column>, pairs: seq<ForeignKeyPair>, i: nat,
                                         keys: seq<ForeignKey>)
    requires i <= |pairs| == |keys| && keys == NewKeysFrom(pairs, 0)
    ensures AddModifiedKeys(columns, pairs, i) == AddNewKeys(columns, keys, i)
    decreases |pairs| - i
  {
    if i < |pairs| {
      NewKeyAt(pairs, 0, i);
      ModifiedAsNew(columns, pairs, i + 1, keys);
    }
  }

  /** The server's foreign keys once the listed ones were added. */
  function Added(m: map<string, ServerKey>, added: seq<ForeignKey>, i: nat): map<string, ServerKey>
    requires i <= |added|
    decreases |added| - i
  {
    if i == |added| then m else Added(m[added[i].name := ToServerKey(added[i])], added, i + 1)
  }

  /** Whether every key of the list finds its name free when its turn comes. */
  predicate NamesFree(m: map<string, ServerKey>, added: seq<ForeignKey>, i: nat)
    requires i <= |added|
    decreases |added| - i
  {
    i == |added| || (added[i].name !in m && NamesFree(m[added[i].name := ToServerKey(added[i])], added, i + 1))
  }

  lemma {:induction false} AddedKeys(m: map<string, ServerKey>, columns: seq<Column>, list: seq<Column>,
                                     added: seq<ForeignKey>, i: nat, rest: seq<KeySpec>)
    requires i <= |added| && KeysResolve(added, columns, list) && NamesFree(m, added, i)
    ensures AddKeys(m, AddNewKeys(columns, added, i) + rest, list) == AddKeys(Added(m, added, i), rest, list)
    decreases |added| - i
  {
    if i == |added| {
      NothingBefore(rest);
    } else {
      var k := added[i];
      var tail := AddNewKeys(columns, added, i + 1) + rest;
      OneKeyAdded(m, columns, list, k, tail);
      AddedKeys(m[k.name := ToServerKey(k)], columns, list, added, i + 1, rest);
      Regroup([AddKeySpec(columns, k)], AddNewKeys(columns, added, i + 1), rest);
    }
  }

  /** Adding the listed keys keeps the relation to the new version. */
  lemma {:induction false} AddedRelate(m: map<string, ServerKey>, prev: seq<ForeignKey>, curr: seq<ForeignKey>,
                                       columns: seq<Column>,
                                       done: set<ForeignKey>, added: seq<ForeignKey>, i: nat)
    requires AreKeys(curr, columns) && i <= |added| && ToAdd(added, i, prev, curr, done)
    requires KeysWith(m, prev, curr, done)
    ensures NamesFree(m, added, i)
    ensures KeysWith(Added(m, added, i), prev, curr, done + ToSet(added[i..]))
    decreases |added| - i
  {
    if i == |added| {
      assert done + ToSet(added[i..]) == done;
    } else {
      var k := added[i];
      NewNameIsFree(m, prev, curr, columns, done, k);
      OneMoreKey(m, prev, curr, done, k);
      AddedRelate(m[k.name := ToServerKey(k)], prev, curr, columns, done + {k}, added, i + 1);
      OneMoreDone(done, added, i);
    }
  }

  lemma OneMoreDone(done: set<ForeignKey>, added: seq<ForeignKey>, i: nat)
    requires i < |added|
    ensures (done + {added[i]}) + ToSet(added[i + 1..]) == done + ToSet(added[i..])
  {
    assert added[i..] == [added[i]] + added[i + 1..];
  }

  ghost predicate Distinct<T>(s: seq<T>)
  {
    forall j, k | 0 <= j < k < |s| :: s[j] != s[k]
  }

  lemma DistinctCons<T>(x: T, rest: seq<T>)
    requires Distinct(rest) && x !in rest
    ensures Distinct([x] + rest)
  {
  }

  lemma {:induction false} DistinctPairs(prev: seq<ForeignKey>, curr: seq<ForeignKey>, i: nat)
    requires i <= |curr| && forall j, k | 0 <= j < k < |curr| :: curr[j].id != curr[k].id
    ensures Distinct(ModifiedKeysFrom(prev, curr, i))
    decreases |curr| - i
  {
    if i < |curr| {
      DistinctPairs(prev, curr, i + 1);
      if IsModifiedKey(prev, curr[i]) {
        var x := ForeignKeyPair(ForeignKeyById(prev, curr[i].id).value, curr[i]);
        ModifiedKeysAre(prev, curr, i + 1, x);
        DistinctCons(x, ModifiedKeysFrom(prev, curr, i + 1));
      }
    }
  }

  /** Every foreign key is in one pair at most. */
  ghost predicate PairsDistinct(pairs: seq<ForeignKeyPair>)
  {
    forall j, k | 0 <= j < k < |pairs| :: pairs[j].newKey != pairs[k].newKey && pairs[j].oldKey != pairs[k].oldKey
  }

  lemma DistinctNewKeys(prev: seq<ForeignKey>, curr: seq<ForeignKey>)
    requires forall j, k | 0 <= j < k < |curr| :: curr[j].id != curr[k].id
    ensures PairsDistinct(ModifiedKeysFrom(prev, curr, 0))
  {
    var pairs := ModifiedKeysFrom(prev, curr, 0);
    DistinctPairs(prev, curr, 0);
    forall j, k | 0 <= j < k < |pairs|
      ensures pairs[j].newKey != pairs[k].newKey && pairs[j].oldKey != pairs[k].oldKey
    {
      assert pairs[j] in pairs && pairs[k] in pairs && pairs[j] != pairs[k];
      ModifiedKeysAre(prev, curr, 0, pairs[j]);
      ModifiedKeysAre(prev, curr, 0, pairs[k]);
    }
  }

  lemma {:induction false} DistinctRemoved(prev: seq<ForeignKey>, curr: seq<ForeignKey>, i: nat)
    requires i <= |prev| && forall j, k | 0 <= j < k < |prev| :: prev[j].id != prev[k].id
    ensures Distinct(RemovedKeysFrom(prev, curr, i))
    decreases |prev| - i
  {
    if i < |prev| {
      DistinctRemoved(prev, curr, i + 1);
      if ForeignKeyById(curr, prev[i].id).None? {
        RemovedKeysAre(prev, curr, i + 1, prev[i]);
        DistinctCons(prev[i], RemovedKeysFrom(prev, curr, i + 1));
      }
    }
  }

  lemma DroppedKeysUnion(a: seq<KeySpec>, b: seq<KeySpec>)
    ensures DroppedKeys(a + b) == DroppedKeys(a) + DroppedKeys(b)
  {
    forall x | x in a || x in b
      ensures x in a + b
    {
    }
  }

  lemma {:induction false} DropKeySpecsDrop(removed: seq<ForeignKey>, i: nat, name: string)
    requires i <= |removed|
    ensures name in DroppedKeys(DropKeySpecs(removed, i)) <==> exists k | i <= k < |removed| :: removed[k].name == name
    decreases |removed| - i
  {
    if i < |removed| {
      DropKeySpecsDrop(removed, i + 1, name);
      var x := DropForeignKey(removed[i].name);
      DroppedKeysUnion([x], DropKeySpecs(removed, i + 1));
      assert x in [x];
    }
  }

  lemma {:induction false} ModifiedAddsOnly(columns: seq<Column>, pairs: seq<ForeignKeyPair>, i: nat)
    requires i <= |pairs|
    ensures DroppedKeys(AddModifiedKeys(columns, pairs, i)) == {}
    decreases |pairs| - i
  {
    if i < |pairs| {
      ModifiedAddsOnly(columns, pairs, i + 1);
      DroppedKeysUnion([AddKeySpec(columns, pairs[i].newKey)], AddModifiedKeys(columns, pairs, i + 1));
    }
  }

  lemma {:induction false} NewAddsOnly(columns: seq<Column>, added: seq<ForeignKey>, i: nat)
    requires i <= |added|
    ensures DroppedKeys(AddNewKeys(columns, added, i)) == {}
    decreases |added| - i
  {
    if i < |added| {
      NewAddsOnly(columns, added, i + 1);
      DroppedKeysUnion([AddKeySpec(columns, added[i])], AddNewKeys(columns, added, i + 1));
    }
  }

  lemma {:induction false} KeyDropsAreSkipped(m: map<string, ServerKey>, removed: seq<ForeignKey>, i: nat,
                                              rest: seq<KeySpec>, list: seq<Column>)
    requires i <= |removed|
    ensures AddKeys(m, DropKeySpecs(removed, i) + rest, list) == AddKeys(m, rest, list)
    decreases |removed| - i
  {
    if i == |removed| {
      assert DropKeySpecs(removed, i) + rest == rest;
    } else {
      var name, tail := removed[i].name, DropKeySpecs(removed, i + 1);
      Regroup([DropForeignKey(name)], tail, rest);
      KeyDropIsSkipped(m, name, tail + rest, list);
      KeyDropsAreSkipped(m, removed, i + 1, rest, list);
    }
  }

  lemma KeyDropIsSkipped(m: map<string, ServerKey>, name: string, rest: seq<KeySpec>, list: seq<Column>)
    ensures AddKeys(m, [DropForeignKey(name)] + rest, list) == AddKeys(m, rest, list)
  {
    var specs := [DropForeignKey(name)] + rest;
    assert specs[0] == DropForeignKey(name) && specs[1..] == rest;
  }

  /** The main statement drops exactly the removed foreign keys. */
  lemma MainDropsRemoved(prev: Table, curr: Table, name: string)
    ensures name in DroppedKeys(AllKeySpecs(prev, curr)) <==>
            exists y | y in prev.foreignKeys :: y.name == name && ForeignKeyById(curr.foreignKeys, y.id).None?
  {
    var removed := RemovedKeysFrom(prev.foreignKeys, curr.foreignKeys, 0);
    var pairs := ModifiedKeysFrom(prev.foreignKeys, curr.foreignKeys, 0);
    var added := RemovedKeysFrom(curr.foreignKeys, prev.foreignKeys, 0);
    var readds, adds := AddModifiedKeys(curr.columns, pairs, 0), AddNewKeys(curr.columns, added, 0);
    DroppedKeysUnion(DropKeySpecs(removed, 0) + readds, adds);
    DroppedKeysUnion(DropKeySpecs(removed, 0), readds);
    ModifiedAddsOnly(curr.columns, pairs, 0);
    NewAddsOnly(curr.columns, added, 0);
    RemovedNames(prev.foreignKeys, curr.foreignKeys, name);
    assert DroppedKeys(AllKeySpecs(prev, curr)) == DroppedKeys(DropKeySpecs(removed, 0));
  }

  lemma RemovedNames(prev: seq<ForeignKey>, curr: seq<ForeignKey>, name: string)
    ensures name in DroppedKeys(DropKeySpecs(RemovedKeysFrom(prev, curr, 0), 0)) <==>
            exists y | y in prev :: y.name == name && ForeignKeyById(curr, y.id).None?
  {
    var removed := RemovedKeysFrom(prev, curr, 0);
    DropKeySpecsDrop(removed, 0, name);
    if k :| 0 <= k < |removed| && removed[k].name == name {
      assert removed[k] in removed;
      RemovedKeysAre(prev, curr, 0, removed[k]);
    }
    if y :| y in prev && y.name == name && ForeignKeyById(curr, y.id).None? {
      var i :| 0 <= i < |prev| && prev[i] == y;
      RemovedKeysAre(prev, curr, 0, y);
      var j :| 0 <= j < |removed| && removed[j] == y;
    }
  }

  /** Whether an old foreign key is dropped ahead, to be added again in its new form. */
  predicate IsReadded(curr: seq<ForeignKey>, y: ForeignKey)
  {
    var c := ForeignKeyById(curr, y.id); c.Some? && ForeignKeyDiffers(y, c.value)
  }

  /** The foreign keys on the server once the modified ones were dropped. */
  ghost predicate KeysPrepared(m: map<string, ServerKey>, prev: seq<ForeignKey>, curr: seq<ForeignKey>)
  {
    && (forall y | y in prev :: if IsReadded(curr, y) then y.name !in m else y.name in m && m[y.name] == ToServerKey(y))
    && (forall name | name in m :: exists y | y in prev :: y.name == name)
  }

  lemma SameNameSameKey(keys: seq<ForeignKey>, columns: seq<Column>, x: ForeignKey, y: ForeignKey)
    requires AreKeys(keys, columns) && x in keys && y in keys && (x.name == y.name || x.id == y.id)
    ensures x == y
  {
    var i :| 0 <= i < |keys| && keys[i] == x;
    var j :| 0 <= j < |keys| && keys[j] == y;
    assert i == j;
  }

  /** The unmodified keys of both versions belong together. */
  lemma KeptKeyPair(prev: Table, curr: Table, x: ForeignKey, y: ForeignKey)
    requires IsTable(prev) && IsTable(curr) && x in curr.foreignKeys && y in prev.foreignKeys && x.id == y.id
    ensures ForeignKeyById(prev.foreignKeys, x.id) == Some(y) && ForeignKeyById(curr.foreignKeys, y.id) == Some(x)
    ensures IsKeptKey(prev.foreignKeys, x) <==> !IsReadded(curr.foreignKeys, y)
  {
    var i :| 0 <= i < |prev.foreignKeys| && prev.foreignKeys[i] == y;
    var j :| 0 <= j < |curr.foreignKeys| && curr.foreignKeys[j] == x;
    KeyByIdAt(prev.foreignKeys, i);
    KeyByIdAt(curr.foreignKeys, j);
  }

  lemma DroppedArePresent(m: map<string, ServerKey>, prev: Table, curr: Table)
    requires IsTable(prev) && IsTable(curr) && KeysPrepared(m, prev.foreignKeys, curr.foreignKeys)
    ensures DroppedKeys(AllKeySpecs(prev, curr)) <= m.Keys
  {
    forall name | name in DroppedKeys(AllKeySpecs(prev, curr))
      ensures name in m
    {
      MainDropsRemoved(prev, curr, name);
      var y :| y in prev.foreignKeys && y.name == name && ForeignKeyById(curr.foreignKeys, y.id).None?;
      assert !IsReadded(curr.foreignKeys, y);
    }
  }

  /** What stays after dropping the removed keys is exactly the unmodified ones. */
  lemma KeptKeysStay(m: map<string, ServerKey>, prev: Table, curr: Table)
    requires IsTable(prev) && IsTable(curr) && KeysPrepared(m, prev.foreignKeys, curr.foreignKeys)
    ensures KeysWith(m - DroppedKeys(AllKeySpecs(prev, curr)), prev.foreignKeys, curr.foreignKeys, {})
  {
    var kept := m - DroppedKeys(AllKeySpecs(prev, curr));
    forall x | x in curr.foreignKeys && IsKeptKey(prev.foreignKeys, x)
      ensures x.name in kept && kept[x.name] == FinalKey(prev.foreignKeys, x)
    {
      KeptKeyStays(m, prev, curr, x);
    }
    forall name | name in kept
      ensures exists x | x in curr.foreignKeys :: IsKeptKey(prev.foreignKeys, x) && x.name == name
    {
      var y :| y in prev.foreignKeys && y.name == name;
      MainDropsRemoved(prev, curr, name);
      var x := ForeignKeyById(curr.foreignKeys, y.id).value;
      KeptKeyPair(prev, curr, x, y);
    }
  }

  lemma KeptKeyStays(m: map<string, ServerKey>, prev: Table, curr: Table, x: ForeignKey)
    requires IsTable(prev) && IsTable(curr) && KeysPrepared(m, prev.foreignKeys, curr.foreignKeys)
    requires x in curr.foreignKeys && IsKeptKey(prev.foreignKeys, x)
    ensures var kept := m - DroppedKeys(AllKeySpecs(prev, curr));
            x.name in kept && kept[x.name] == FinalKey(prev.foreignKeys, x)
  {
    var y := ForeignKeyById(prev.foreignKeys, x.id).value;
    KeptKeyPair(prev, curr, x, y);
    MainDropsRemoved(prev, curr, x.name);
    forall z | z in prev.foreignKeys && z.name == x.name
      ensures ForeignKeyById(curr.foreignKeys, z.id).Some?
    {
      SameNameSameKey(prev.foreignKeys, prev.columns, y, z);
    }
  }

  // ---- names that are not free ----

  /** No added or modified foreign key takes the name of a removed one. */
  ghost predicate RemovedNamesStayFree(prev: seq<ForeignKey>, curr: seq<ForeignKey>)
  {
    forall k, y | k in curr && y in prev && !IsKeptKey(prev, k) && ForeignKeyById(curr, y.id).None? :: k.name != y.name
  }

  lemma AddedUnion(a: seq<KeySpec>, b: seq<KeySpec>)
    ensures AddedKeyNames(a + b) == AddedKeyNames(a) + AddedKeyNames(b)
  {
    forall x | x in a || x in b
      ensures x in a + b
    {
    }
  }

  lemma {:induction false} DropsAddNothing(removed: seq<ForeignKey>, i: nat)
    requires i <= |removed|
    ensures AddedKeyNames(DropKeySpecs(removed, i)) == {}
    decreases |removed| - i
  {
    if i < |removed| {
      DropsAddNothing(removed, i + 1);
      AddedUnion([DropForeignKey(removed[i].name)], DropKeySpecs(removed, i + 1));
    }
  }

  lemma OneMoreName(x: KeySpec, rest: seq<KeySpec>, name: string)
    requires x.AddForeignKey?
    ensures name in AddedKeyNames([x] + rest) <==> x.keyName == name || name in AddedKeyNames(rest)
  {
    AddedUnion([x], rest);
    assert x in [x];
  }

  lemma {:induction false} NewKeysAddNames(columns: seq<Column>, added: seq<ForeignKey>, i: nat, name: string)
    requires i <= |added|
    ensures name in AddedKeyNames(AddNewKeys(columns, added, i))
            <==> exists k | i <= k < |added| :: added[k].name == name
    decreases |added| - i
  {
    if i < |added| {
      NewKeysAddNames(columns, added, i + 1, name);
      OneMoreName(AddKeySpec(columns, added[i]), AddNewKeys(columns, added, i + 1), name);
    }
  }

  /** The main statement adds exactly the foreign keys that are new or modified. */
  lemma MainAddsNames(prev: Table, curr: Table, name: string)
    ensures name in AddedKeyNames(AllKeySpecs(prev, curr)) <==>
            exists k | k in curr.foreignKeys :: !IsKeptKey(prev.foreignKeys, k) && k.name == name
  {
    var removed := RemovedKeysFrom(prev.foreignKeys, curr.foreignKeys, 0);
    var pairs := ModifiedKeysFrom(prev.foreignKeys, curr.foreignKeys, 0);
    var modified, added := NewKeysFrom(pairs, 0), RemovedKeysFrom(curr.foreignKeys, prev.foreignKeys, 0);
    var readds, adds := AddNewKeys(curr.columns, modified, 0), AddNewKeys(curr.columns, added, 0);
    NewKeysSize(pairs, 0);
    ModifiedAsNew(curr.columns, pairs, 0, modified);
    AddedUnion(DropKeySpecs(removed, 0) + readds, adds);
    AddedUnion(DropKeySpecs(removed, 0), readds);
    DropsAddNothing(removed, 0);
    NewKeysAddNames(curr.columns, modified, 0, name);
    NewKeysAddNames(curr.columns, added, 0, name);
    ListedAreNotKept(prev.foreignKeys, curr.foreignKeys, modified, added);
    ListedNames(prev.foreignKeys, curr.foreignKeys, modified, added, name);
  }

  /** The modified and the added keys are those that are not unmodified. */
  lemma ListedAreNotKept(prev: seq<ForeignKey>, curr: seq<ForeignKey>, modified: seq<ForeignKey>,
                         added: seq<ForeignKey>)
    requires modified == NewKeysFrom(ModifiedKeysFrom(prev, curr, 0), 0) && added == RemovedKeysFrom(curr, prev, 0)
    ensures forall x | x in modified || x in added :: x in curr && !IsKeptKey(prev, x)
    ensures forall x | x in curr :: IsKeptKey(prev, x) || x in modified || x in added
  {
    ModifiedAreListed(prev, curr);
    forall x | x in added
      ensures x in curr && !IsKeptKey(prev, x)
    {
      RemovedKeysAre(curr, prev, 0, x);
    }
    forall x | x in curr
      ensures IsKeptKey(prev, x) || x in modified || x in added
    {
      NotKeptIsListed(prev, curr, x);
    }
  }

  lemma ModifiedAreListed(prev: seq<ForeignKey>, curr: seq<ForeignKey>)
    ensures forall x | x in NewKeysFrom(ModifiedKeysFrom(prev, curr, 0), 0) :: x in curr && IsModifiedKey(prev, x)
  {
    var pairs := ModifiedKeysFrom(prev, curr, 0);
    var modified := NewKeysFrom(pairs, 0);
    NewKeysSize(pairs, 0);
    forall x | x in modified
      ensures x in curr && IsModifiedKey(prev, x)
    {
      var k :| 0 <= k < |modified| && modified[k] == x;
      NewKeyAt(pairs, 0, k);
      assert pairs[k] in pairs;
      ModifiedKeysAre(prev, curr, 0, pairs[k]);
    }
  }

  lemma ListedNames(prev: seq<ForeignKey>, curr: seq<ForeignKey>, modified: seq<ForeignKey>, added: seq<ForeignKey>,
                    name: string)
    requires forall x | x in modified || x in added :: x in curr && !IsKeptKey(prev, x)
    requires forall x | x in curr :: IsKeptKey(prev, x) || x in modified || x in added
    ensures (exists k | k in curr :: !IsKeptKey(prev, k) && k.name == name)
       <==> (exists i | 0 <= i < |modified| :: modified[i].name == name)
            || exists i | 0 <= i < |added| :: added[i].name == name
  {
    if k :| k in curr && !IsKeptKey(prev, k) && k.name == name {
      if k in modified {
        var i :| 0 <= i < |modified| && modified[i] == k;
      } else {
        var i :| 0 <= i < |added| && added[i] == k;
      }
    }
    if i :| 0 <= i < |modified| && modified[i].name == name {
      assert modified[i] in modified;
    }
    if i :| 0 <= i < |added| && added[i].name == name {
      assert added[i] in added;
    }
  }

  /** The name of an added key is on the server just when it is that of a removed key. */
  lemma TakenIffRemoved(m: map<string, ServerKey>, prev: Table, curr: Table, k: ForeignKey)
    requires IsTable(prev) && IsTable(curr) && KeysPrepared(m, prev.foreignKeys, curr.foreignKeys)
    requires k in curr.foreignKeys && !IsKeptKey(prev.foreignKeys, k)
    ensures k.name in m <==> exists y | y in prev.foreignKeys ::
              ForeignKeyById(curr.foreignKeys, y.id).None? && y.name == k.name
  {
    if k.name in m {
      KeptKeysStay(m, prev, curr);
      NewNameIsFree(m - DroppedKeys(AllKeySpecs(prev, curr)), prev.foreignKeys, curr.foreignKeys, curr.columns, {}, k);
      MainDropsRemoved(prev, curr, k.name);
    }
  }

  lemma NamesAreFreeIff(m: map<string, ServerKey>, prev: Table, curr: Table)
    requires IsTable(prev) && IsTable(curr) && KeysPrepared(m, prev.foreignKeys, curr.foreignKeys)
    ensures AddedKeyNames(AllKeySpecs(prev, curr)) * m.Keys == {}
            <==> RemovedNamesStayFree(prev.foreignKeys, curr.foreignKeys)
  {
    var names := AddedKeyNames(AllKeySpecs(prev, curr));
    if name :| name in names * m.Keys {
      MainAddsNames(prev, curr, name);
      var k :| k in curr.foreignKeys && !IsKeptKey(prev.foreignKeys, k) && k.name == name;
      TakenIffRemoved(m, prev, curr, k);
    }
    if k, y :| k in curr.foreignKeys && y in prev.foreignKeys && !IsKeptKey(prev.foreignKeys, k)
               && ForeignKeyById(curr.foreignKeys, y.id).None? && k.name == y.name {
      TakenIffRemoved(m, prev, curr, k);
      MainAddsNames(prev, curr, k.name);
      assert k.name in names * m.Keys;
    }
  }

  /** One statement cannot drop a foreign key and add one of its name, which is why the modified
      ones are dropped by statements of their own. */
  lemma DropAndAddIsRefused(m: map<string, ServerKey>, specs: seq<KeySpec>, list: seq<Column>, name: string)
    requires name in DroppedKeys(specs) && name in AddedKeyNames(specs)
    ensures NewKeys(m, specs, list) == None
  {
    assert name in m ==> name in AddedKeyNames(specs) * m.Keys;
  }

  /** With the modified foreign keys dropped ahead, the other clauses succeed if and only if no
      foreign key takes the name of a removed one. They then give the new foreign keys. */
  lemma KeyReplay(m: map<string, ServerKey>, prev: Table, curr: Table, list: seq<Column>)
    requires IsTable(prev) && IsTable(curr) && KeysPrepared(m, prev.foreignKeys, curr.foreignKeys)
    requires multiset(list) == multiset(Definitions(curr.columns))
    ensures var r := NewKeys(m, AllKeySpecs(prev, curr), list);
            && (r.Some? <==> RemovedNamesStayFree(prev.foreignKeys, curr.foreignKeys))
            && (r.Some? ==> KeysWith(r.value, prev.foreignKeys, curr.foreignKeys, ToSet(curr.foreignKeys)))
  {
    NamesAreFreeIff(m, prev, curr);
    if RemovedNamesStayFree(prev.foreignKeys, curr.foreignKeys) {
      var kept := m - DroppedKeys(AllKeySpecs(prev, curr));
      KeptKeysStay(m, prev, curr);
      DroppedArePresent(m, prev, curr);
      KeptKeysHaveColumns(kept, prev, curr, list);
      NewKeysResolve(curr, list);
      var next := AllKeysAdded(kept, prev, curr, list);
      KeysAre(m, AllKeySpecs(prev, curr), list, next);
    }
  }

  lemma KeysAre(m: map<string, ServerKey>, specs: seq<KeySpec>, list: seq<Column>, next: map<string, ServerKey>)
    requires DroppedKeys(specs) <= m.Keys && KeysHaveColumns(m - DroppedKeys(specs), list)
    requires AddedKeyNames(specs) * m.Keys == {} && AddKeys(m - DroppedKeys(specs), specs, list) == Some(next)
    ensures NewKeys(m, specs, list) == Some(next)
  {
  }

  lemma KeptKeysHaveColumns(kept: map<string, ServerKey>, prev: Table, curr: Table, list: seq<Column>)
    requires AreKeys(curr.foreignKeys, curr.columns) && multiset(list) == multiset(Definitions(curr.columns))
    requires KeysWith(kept, prev.foreignKeys, curr.foreignKeys, {})
    ensures KeysHaveColumns(kept, list)
  {
    forall name | name in kept
      ensures HasColumns(list, kept[name].columnIds)
    {
      var x :| x in curr.foreignKeys && IsKeptKey(prev.foreignKeys, x) && x.name == name;
      KeptKeyHasColumns(prev, curr, list, x);
    }
  }

  lemma NewKeysResolve(curr: Table, list: seq<Column>)
    requires IsTable(curr) && multiset(list) == multiset(Definitions(curr.columns))
    ensures KeysResolve(curr.foreignKeys, curr.columns, list)
  {
    forall k | k in curr.foreignKeys
      ensures ResolveNames(list, ColumnNames(curr.columns, k.columnIds)) == Some(k.columnIds)
    {
      var i :| 0 <= i < |curr.foreignKeys| && curr.foreignKeys[i] == k;
      ResolveIds(list, curr.columns, k.columnIds);
    }
  }

  lemma KeptKeyHasColumns(prev: Table, curr: Table, list: seq<Column>, x: ForeignKey)
    requires AreKeys(curr.foreignKeys, curr.columns) && multiset(list) == multiset(Definitions(curr.columns))
    requires x in curr.foreignKeys && IsKeptKey(prev.foreignKeys, x)
    ensures HasColumns(list, FinalKey(prev.foreignKeys, x).columnIds)
  {
    var i :| 0 <= i < |curr.foreignKeys| && curr.foreignKeys[i] == x;
    var y := ForeignKeyById(prev.foreignKeys, x.id).value;
    forall id | id in y.columnIds
      ensures ColumnById(curr.columns, id).Some?
    {
      assert id in ToSet(x.columnIds);
    }
    StillThere(list, curr.columns, y.columnIds);
  }

  lemma AllKeysAdded(kept: map<string, ServerKey>, prev: Table, curr: Table, list: seq<Column>)
      returns (next: map<string, ServerKey>)
    requires AreKeys(curr.foreignKeys, curr.columns) && KeysResolve(curr.foreignKeys, curr.columns, list)
    requires KeysWith(kept, prev.foreignKeys, curr.foreignKeys, {})
    ensures AddKeys(kept, AllKeySpecs(prev, curr), list) == Some(next)
    ensures KeysWith(next, prev.foreignKeys, curr.foreignKeys, ToSet(curr.foreignKeys))
  {
    var modified := NewKeysFrom(ModifiedKeysFrom(prev.foreignKeys, curr.foreignKeys, 0), 0);
    var added := RemovedKeysFrom(curr.foreignKeys, prev.foreignKeys, 0);
    KeysToAdd(prev.foreignKeys, curr.foreignKeys, modified, added);
    AddedRelate(kept, prev.foreignKeys, curr.foreignKeys, curr.columns, {}, modified, 0);
    assert {} + ToSet(modified[0..]) == ToSet(modified) && added[0..] == added;
    var m := Added(kept, modified, 0);
    AddedRelate(m, prev.foreignKeys, curr.foreignKeys, curr.columns, ToSet(modified), added, 0);
    next := Added(m, added, 0);
    AllKeysDone(next, prev.foreignKeys, curr.foreignKeys, ToSet(modified) + ToSet(added));
    AllClausesRun(kept, prev, curr, list, modified, added);
  }

  /** The clauses add exactly the modified and the new foreign keys. */
  lemma AllClausesRun(kept: map<string, ServerKey>, prev: Table, curr: Table, list: seq<Column>,
                      modified: seq<ForeignKey>, added: seq<ForeignKey>)
    requires modified == NewKeysFrom(ModifiedKeysFrom(prev.foreignKeys, curr.foreignKeys, 0), 0)
    requires added == RemovedKeysFrom(curr.foreignKeys, prev.foreignKeys, 0)
    requires KeysResolve(modified, curr.columns, list) && KeysResolve(added, curr.columns, list)
    requires NamesFree(kept, modified, 0) && NamesFree(Added(kept, modified, 0), added, 0)
    ensures AddKeys(kept, AllKeySpecs(prev, curr), list) == Some(Added(Added(kept, modified, 0), added, 0))
  {
    var removed := RemovedKeysFrom(prev.foreignKeys, curr.foreignKeys, 0);
    var pairs := ModifiedKeysFrom(prev.foreignKeys, curr.foreignKeys, 0);
    NewKeysSize(pairs, 0);
    ModifiedAsNew(curr.columns, pairs, 0, modified);
    Regroup(DropKeySpecs(removed, 0), AddNewKeys(curr.columns, modified, 0), AddNewKeys(curr.columns, added, 0));
    ClausesRun(kept, curr.columns, list, removed, modified, added);
  }

  lemma ClausesRun(kept: map<string, ServerKey>, columns: seq<Column>, list: seq<Column>,
                   removed: seq<ForeignKey>, modified: seq<ForeignKey>, added: seq<ForeignKey>)
    requires KeysResolve(modified, columns, list) && KeysResolve(added, columns, list)
    requires NamesFree(kept, modified, 0) && NamesFree(Added(kept, modified, 0), added, 0)
    ensures AddKeys(kept, DropKeySpecs(removed, 0)
            + (AddNewKeys(columns, modified, 0) + AddNewKeys(columns, added, 0)), list)
         == Some(Added(Added(kept, modified, 0), added, 0))
  {
    var adds := AddNewKeys(columns, added, 0);
    KeyDropsAreSkipped(kept, removed, 0, AddNewKeys(columns, modified, 0) + adds, list);
    AddedKeys(kept, columns, list, modified, 0, adds);
    AddedKeys(Added(kept, modified, 0), columns, list, added, 0, []);
    NothingBehind(adds);
  }

  /** The modified and the added keys are disjoint lists that cover what is not unmodified. */
  lemma KeysToAdd(prev: seq<ForeignKey>, curr: seq<ForeignKey>, modified: seq<ForeignKey>, added: seq<ForeignKey>)
    requires forall j, k | 0 <= j < k < |curr| :: curr[j].id != curr[k].id
    requires modified == NewKeysFrom(ModifiedKeysFrom(prev, curr, 0), 0) && added == RemovedKeysFrom(curr, prev, 0)
    ensures ToAdd(modified, 0, prev, curr, {}) && ToAdd(added, 0, prev, curr, ToSet(modified))
    ensures forall x | x in curr :: IsKeptKey(prev, x) || x in ToSet(modified) + ToSet(added)
  {
    ModifiedToAdd(prev, curr);
    DistinctRemoved(curr, prev, 0);
    ListedAreNotKept(prev, curr, modified, added);
    ModifiedAreListed(prev, curr);
    forall k | 0 <= k < |added|
      ensures added[k] in curr && ForeignKeyById(prev, added[k].id).None?
    {
      assert added[k] in added;
      RemovedKeysAre(curr, prev, 0, added[k]);
    }
  }

  lemma ModifiedToAdd(prev: seq<ForeignKey>, curr: seq<ForeignKey>)
    requires forall j, k | 0 <= j < k < |curr| :: curr[j].id != curr[k].id
    ensures ToAdd(NewKeysFrom(ModifiedKeysFrom(prev, curr, 0), 0), 0, prev, curr, {})
  {
    var pairs := ModifiedKeysFrom(prev, curr, 0);
    var modified := NewKeysFrom(pairs, 0);
    NewKeysSize(pairs, 0);
    DistinctNewKeys(prev, curr);
    ModifiedAreListed(prev, curr);
    forall k | 0 <= k < |modified|
      ensures modified[k] in curr && !IsKeptKey(prev, modified[k])
    {
      assert modified[k] in modified;
    }
    forall j, k | 0 <= j < k < |modified|
      ensures modified[j] != modified[k]
    {
      NewKeyAt(pairs, 0, j);
      NewKeyAt(pairs, 0, k);
    }
  }

  lemma NotKeptIsListed(prev: seq<ForeignKey>, curr: seq<ForeignKey>, x: ForeignKey)
    requires x in curr
    ensures IsKeptKey(prev, x) || x in NewKeysFrom(ModifiedKeysFrom(prev, curr, 0), 0)
            || x in RemovedKeysFrom(curr, prev, 0)
  {
    var pairs := ModifiedKeysFrom(prev, curr, 0);
    var i :| 0 <= i < |curr| && curr[i] == x;
    if ForeignKeyById(prev, x.id).None? {
      RemovedKeysAre(curr, prev, 0, x);
    } else if IsModifiedKey(prev, x) {
      var pair := ForeignKeyPair(ForeignKeyById(prev, x.id).value, x);
      ModifiedKeysAre(prev, curr, 0, pair);
      var k :| 0 <= k < |pairs| && pairs[k] == pair;
      NewKeyAt(pairs, 0, k);
    }
  }

  lemma AllKeysDone(m: map<string, ServerKey>, prev: seq<ForeignKey>, curr: seq<ForeignKey>, done: set<ForeignKey>)
    requires KeysWith(m, prev, curr, done) && forall x | x in curr :: IsKeptKey(prev, x) || x in done
    ensures KeysWith(m, prev, curr, ToSet(curr))
  {
    forall name | name in m
      ensures exists x | x in curr :: (x in ToSet(curr) || IsKeptKey(prev, x)) && x.name == name
    {
      var x :| x in curr && (x in done || IsKeptKey(prev, x)) && x.name == name;
      assert x in ToSet(curr);
    }
  }
}
