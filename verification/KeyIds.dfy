/** Foreign keys that share an id, as all keys of a parsed table do: when the statements of an
    edit are right nevertheless.
 */
module KeyIds {
  import opened QtStrings
  import opened Schema
  import opened TableEntityComparator
  import opened AlterServer
  import opened MySQLTableEditor
  import opened AlterColumns
  import opened AlterIndexes
  import opened AlterKeys
  import opened AlterReplay

  /** A table whose foreign keys may have any ids. */
  ghost predicate IsTableOfAnyIds(t: Table)
  {
    && AreColumns(t.columns) && AreIndexes(t.indexes, t.columns)
    && NamesDiffer(t.foreignKeys)
    && forall i | 0 <= i < |t.foreignKeys| :: HasColumns(t.columns, t.foreignKeys[i].columnIds)
  }

  ghost predicate NamesDiffer(keys: seq<ForeignKey>)
  {
    forall i, j | 0 <= i < j < |keys| :: keys[i].name != keys[j].name
  }

  predicate HasId(keys: seq<ForeignKey>, id: nat)
  {
    ForeignKeyById(keys, id).Some?
  }

  ghost predicate IsOnly(keys: seq<ForeignKey>, id: nat)
  {
    forall i, j | 0 <= i < j < |keys| :: !(keys[i].id == id && keys[j].id == id)
  }

  /** An id that both versions have belongs to one foreign key of each. */
  ghost predicate IdsPair(prev: seq<ForeignKey>, curr: seq<ForeignKey>)
  {
    forall id | HasId(prev, id) && HasId(curr, id) :: IsOnly(prev, id) && IsOnly(curr, id)
  }

  /** The server's foreign keys are those of the new version. */
  ghost predicate AreEdited(m: map<string, ServerKey>, prev: seq<ForeignKey>, curr: seq<ForeignKey>)
  {
    KeysWith(m, prev, curr, ToSet(curr))
  }

  // ---- a name that is dropped, or not, by the statements ----

  predicate Drops(q: Query, name: string)
  {
    q.Alter? && DropForeignKey(name) in q.keySpecs
  }

  predicate Adds(q: Query, name: string)
  {
    q.Alter? && name in AddedKeyNames(q.keySpecs)
  }

  lemma DropsIff(q: Query, name: string)
    requires q.Alter?
    ensures Drops(q, name) <==> name in DroppedKeys(q.keySpecs)
  {
  }

  lemma {:induction false} AddKeysAdds(m: map<string, ServerKey>, specs: seq<KeySpec>, list: seq<Column>)
    requires AddKeys(m, specs, list).Some?
    ensures m.Keys <= AddKeys(m, specs, list).value.Keys <= m.Keys + AddedKeyNames(specs)
    decreases specs
  {
    if specs != [] {
      var rest := specs[1..];
      assert forall x | x in rest :: x in specs;
      assert specs[0] in specs;
      match specs[0] {
        case DropForeignKey(_) => AddKeysAdds(m, rest, list);
        case AddForeignKey(name, columnNames, table, referenceColumns, onUpdate, onDelete) =>
          var key := ServerKey(ResolveNames(list, columnNames).value, table, referenceColumns, onUpdate, onDelete);
          AddKeysAdds(m[name := key], rest, list);
      }
    }
  }

  /** What one statement does to a name. */
  lemma NameAfter(t: ServerTable, q: Query, name: string)
    requires Execute(t, q).Some?
    ensures var keys := Execute(t, q).value.foreignKeys;
            && (name in t.foreignKeys ==> !Adds(q, name)) && (Drops(q, name) ==> name in t.foreignKeys)
            && (name in keys <==> Adds(q, name) || (name in t.foreignKeys && !Drops(q, name)))
  {
    if q.Alter? {
      DropsIff(q, name);
      var columns := NewColumns(t.columns, q.columnSpecs, q.droppedColumns).value;
      var kept := t.foreignKeys - DroppedKeys(q.keySpecs);
      assert NewKeys(t.foreignKeys, q.keySpecs, columns) == AddKeys(kept, q.keySpecs, columns);
      AddKeysAdds(kept, q.keySpecs, columns);
      var taken := AddedKeyNames(q.keySpecs) * t.foreignKeys.Keys;
      assert taken == {} && name !in taken;
      if Adds(q, name) {
        AddedIsThere(kept, q.keySpecs, columns, name);
      }
    }
  }

  lemma {:induction false} AddedIsThere(m: map<string, ServerKey>, specs: seq<KeySpec>, list: seq<Column>, name: string)
    requires AddKeys(m, specs, list).Some? && name in AddedKeyNames(specs)
    ensures name in AddKeys(m, specs, list).value
    decreases specs
  {
    var rest := specs[1..];
    match specs[0] {
      case DropForeignKey(_) => AddedIsThere(m, rest, list, name);
      case AddForeignKey(first, columnNames, table, referenceColumns, onUpdate, onDelete) =>
        var key := ServerKey(ResolveNames(list, columnNames).value, table, referenceColumns, onUpdate, onDelete);
        if first == name {
          AddKeysAdds(m[name := key], rest, list);
        } else {
          AddedIsThere(m[first := key], rest, list, name);
        }
    }
  }

  /** A name that no statement drops stays, and no statement can add it. */
  lemma {:induction false} NameStays(t: ServerTable, queries: seq<Query>, name: string)
    requires name in t.foreignKeys && forall q | q in queries :: !Drops(q, name)
    requires ExecuteAll(t, queries).Some?
    ensures name in ExecuteAll(t, queries).value.foreignKeys && forall q | q in queries :: !Adds(q, name)
    decreases queries
  {
    if queries != [] {
      NameAfter(t, queries[0], name);
      assert queries[0] in queries && forall q | q in queries[1..] :: q in queries;
      NameStays(Execute(t, queries[0]).value, queries[1..], name);
      assert queries == [queries[0]] + queries[1..];
    }
  }

  /** A name that no statement adds stays away, and no statement can drop it. */
  lemma {:induction false} NameStaysAway(t: ServerTable, queries: seq<Query>, name: string)
    requires name !in t.foreignKeys && forall q | q in queries :: !Adds(q, name)
    requires ExecuteAll(t, queries).Some?
    ensures name !in ExecuteAll(t, queries).value.foreignKeys && forall q | q in queries :: !Drops(q, name)
    decreases queries
  {
    if queries != [] {
      NameAfter(t, queries[0], name);
      assert queries[0] in queries && forall q | q in queries[1..] :: q in queries;
      NameStaysAway(Execute(t, queries[0]).value, queries[1..], name);
      assert queries == [queries[0]] + queries[1..];
    }
  }

  /** Once dropped, a name that is not added is gone, and cannot be dropped again. */
  lemma {:induction false} DroppedIsGone(t: ServerTable, queries: seq<Query>, k: nat, name: string)
    requires k < |queries| && Drops(queries[k], name) && forall q | q in queries :: !Adds(q, name)
    requires ExecuteAll(t, queries).Some?
    ensures name !in ExecuteAll(t, queries).value.foreignKeys
            && forall j | k < j < |queries| :: !Drops(queries[j], name)
    decreases queries
  {
    var next, rest := Execute(t, queries[0]).value, queries[1..];
    assert queries[0] in queries && forall q | q in rest :: q in queries;
    if k == 0 {
      NameAfter(t, queries[0], name);
      NameStaysAway(next, rest, name);
      assert forall j | 0 < j < |queries| :: queries[j] == rest[j - 1] && rest[j - 1] in rest;
    } else {
      DroppedIsGone(next, rest, k - 1, name);
      assert forall j | k < j < |queries| :: queries[j] == rest[j - 1];
    }
  }

  lemma {:induction false} FirstPartSucceeds(t: ServerTable, a: seq<Query>, b: seq<Query>)
    requires ExecuteAll(t, a + b).Some?
    ensures ExecuteAll(t, a).Some?
    decreases a
  {
    if a != [] {
      assert (a + b)[0] == a[0] && (a + b)[1..] == a[1..] + b;
      FirstPartSucceeds(Execute(t, a[0]).value, a[1..], b);
    }
  }

  // ---- what the statements of an edit drop and add ----

  lemma {:induction false} DropQueryAt(pairs: seq<ForeignKeyPair>, i: nat, k: nat)
    requires i <= k < |pairs|
    ensures |DropKeyQueries(pairs, i)| == |pairs| - i
    ensures DropKeyQueries(pairs, i)[k - i] == Alter([], [], [], [DropForeignKey(pairs[k].oldKey.name)])
    decreases |pairs| - i
  {
    if i < k {
      DropQueryAt(pairs, i + 1, k);
    } else {
      DropQueriesSize(pairs, i);
    }
  }

  lemma {:induction false} DropQueriesSize(pairs: seq<ForeignKeyPair>, i: nat)
    requires i <= |pairs|
    ensures |DropKeyQueries(pairs, i)| == |pairs| - i
    decreases |pairs| - i
  {
    if i < |pairs| {
      DropQueriesSize(pairs, i + 1);
    }
  }

  lemma {:induction false} DropQueriesDrop(pairs: seq<ForeignKeyPair>, q: Query, name: string)
    requires q in DropKeyQueries(pairs, 0)
    ensures !Adds(q, name)
    ensures Drops(q, name) ==> exists k | 0 <= k < |pairs| :: pairs[k].oldKey.name == name
  {
    DropQueriesSize(pairs, 0);
    var k :| 0 <= k < |pairs| && DropKeyQueries(pairs, 0)[k] == q;
    DropQueryAt(pairs, 0, k);
  }

  lemma {:induction false} DefaultQueriesDoNeither(modified: seq<ColumnStatus>, i: nat, q: Query)
    requires i <= |modified| && q in DropDefaultQueries(modified, i)
    ensures !q.Alter?
    decreases |modified| - i
  {
    if i < |modified| && !(LosesDefault(modified[i]) && q == AlterDropDefault(modified[i].oldCol.value.name)) {
      DefaultQueriesDoNeither(modified, i + 1, q);
    }
  }

  /** A statement of an edit is one of those ahead, or the main one. */
  lemma QueryIs(prev: Table, curr: Table, q: Query)
    requires q in EditQueries(prev, curr) && q.Alter?
    ensures q in DropKeyQueries(ModifiedKeysFrom(prev.foreignKeys, curr.foreignKeys, 0), 0)
            || q == MainQuery(prev, curr)
  {
    var modified := ModifiedColumnsFrom(prev.columns, curr.columns, 0);
    if q in DropDefaultQueries(modified, 0) {
      DefaultQueriesDoNeither(modified, 0, q);
    }
  }

  /** The name of an old foreign key is dropped by a statement when the key is modified or
      removed. */
  lemma DroppedNameIs(prev: Table, curr: Table, q: Query, y: ForeignKey)
    requires NamesDiffer(prev.foreignKeys) && y in prev.foreignKeys
    requires q in EditQueries(prev, curr) && Drops(q, y.name)
    ensures HasId(curr.foreignKeys, y.id) ==> ForeignKeyById(prev.foreignKeys, y.id) == Some(y)
  {
    QueryIs(prev, curr, q);
    var pairs := ModifiedKeysFrom(prev.foreignKeys, curr.foreignKeys, 0);
    if q in DropKeyQueries(pairs, 0) {
      DropQueriesDrop(pairs, q, y.name);
      var k :| 0 <= k < |pairs| && pairs[k].oldKey.name == y.name;
      assert pairs[k] in pairs;
      ModifiedKeysAre(prev.foreignKeys, curr.foreignKeys, 0, pairs[k]);
      OneOfTheName(prev.foreignKeys, pairs[k].oldKey, y);
    } else {
      DropsIff(q, y.name);
      MainDropsRemoved(prev, curr, y.name);
      var z :| z in prev.foreignKeys && z.name == y.name && ForeignKeyById(curr.foreignKeys, z.id).None?;
      OneOfTheName(prev.foreignKeys, z, y);
    }
  }

  lemma OneOfTheName(keys: seq<ForeignKey>, x: ForeignKey, y: ForeignKey)
    requires NamesDiffer(keys) && x in keys && y in keys && x.name == y.name
    ensures x == y
  {
    var i :| 0 <= i < |keys| && keys[i] == x;
    var j :| 0 <= j < |keys| && keys[j] == y;
    assert i == j;
  }

  /** Names are added for what is not unmodified, and by the main statement only. */
  lemma AddedNameIs(prev: Table, curr: Table, q: Query, name: string) returns (x: ForeignKey)
    requires q in EditQueries(prev, curr) && Adds(q, name)
    ensures x in curr.foreignKeys && !IsKeptKey(prev.foreignKeys, x) && x.name == name
  {
    QueryIs(prev, curr, q);
    var pairs := ModifiedKeysFrom(prev.foreignKeys, curr.foreignKeys, 0);
    if q in DropKeyQueries(pairs, 0) {
      DropQueriesDrop(pairs, q, name);
    }
    MainAddsNames(prev, curr, name);
    x :| x in curr.foreignKeys && !IsKeptKey(prev.foreignKeys, x) && x.name == name;
  }

  lemma NotKeptIsAdded(prev: Table, curr: Table, x: ForeignKey)
    requires x in curr.foreignKeys && !IsKeptKey(prev.foreignKeys, x)
    ensures MainQuery(prev, curr) in EditQueries(prev, curr) && Adds(MainQuery(prev, curr), x.name)
  {
    MainAddsNames(prev, curr, x.name);
    assert MainAlter(prev, curr) == [MainQuery(prev, curr)];
  }

  // ---- two old foreign keys of one id ----

  /** Of two old foreign keys of one id the second is never dropped. */
  lemma SecondStays(prev: Table, curr: Table, i: nat, j: nat)
    requires IsTableOfAnyIds(prev) && IsTableOfAnyIds(curr)
    requires i < j < |prev.foreignKeys| && prev.foreignKeys[i].id == prev.foreignKeys[j].id
    requires HasId(curr.foreignKeys, prev.foreignKeys[j].id)
    ensures var r := ExecuteAll(Publish(prev), EditQueries(prev, curr));
            r.Some? ==> !AreEdited(r.value.foreignKeys, prev.foreignKeys, curr.foreignKeys)
  {
    var y := prev.foreignKeys[j];
    var queries := EditQueries(prev, curr);
    NotFirst(prev.foreignKeys, i, j);
    PublishedName(prev.foreignKeys, 0, j);
    forall q | q in queries
      ensures !Drops(q, y.name)
    {
      if Drops(q, y.name) {
        DroppedNameIs(prev, curr, q, y);
      }
    }
    var r := ExecuteAll(Publish(prev), queries);
    if r.Some? && AreEdited(r.value.foreignKeys, prev.foreignKeys, curr.foreignKeys) {
      NameStays(Publish(prev), queries, y.name);
      var x :| x in curr.foreignKeys && x.name == y.name;
      if IsKeptKey(prev.foreignKeys, x) {
        OneOfTheName(prev.foreignKeys, ForeignKeyById(prev.foreignKeys, x.id).value, y);
      } else {
        NotKeptIsAdded(prev, curr, x);
      }
      assert false;
    }
  }

  lemma {:induction false} NotFirst(keys: seq<ForeignKey>, i: nat, j: nat)
    requires NamesDiffer(keys) && i < j < |keys| && keys[i].id == keys[j].id
    ensures ForeignKeyById(keys, keys[j].id) != Some(keys[j])
  {
    if keys[0].id == keys[j].id {
      assert keys[0].name != keys[j].name;
    } else {
      NotFirst(keys[1..], i - 1, j - 1);
    }
  }

  lemma {:induction false} PublishedName(keys: seq<ForeignKey>, i: nat, k: nat)
    requires i <= k < |keys|
    ensures keys[k].name in PublishKeys(keys, i)
    decreases |keys| - i
  {
    if i < k {
      PublishedName(keys, i + 1, k);
    }
  }

  // ---- two new foreign keys of one id ----

  /** When two new foreign keys are paired with one old key, that is dropped twice, or dropped
      although one of them is the old key unmodified. */
  lemma DroppedTooOften(prev: Table, curr: Table, i: nat, j: nat)
    requires IsTableOfAnyIds(prev) && IsTableOfAnyIds(curr)
    requires i < j < |curr.foreignKeys| && curr.foreignKeys[i].id == curr.foreignKeys[j].id
    requires HasId(prev.foreignKeys, curr.foreignKeys[j].id)
    ensures var r := ExecuteAll(Publish(prev), EditQueries(prev, curr));
            r.Some? ==> !AreEdited(r.value.foreignKeys, prev.foreignKeys, curr.foreignKeys)
  {
    var x, y := curr.foreignKeys[i], curr.foreignKeys[j];
    assert x.name != y.name;
    if IsKeptKey(prev.foreignKeys, x) {
      KeptIsDropped(prev, curr, x, y);
    } else if IsKeptKey(prev.foreignKeys, y) {
      KeptIsDropped(prev, curr, y, x);
    } else {
      DroppedTwice(prev, curr, x, y);
    }
  }

  lemma {:induction false} KeptIsNotAdded(prev: Table, curr: Table, q: Query, x: ForeignKey)
    requires NamesDiffer(curr.foreignKeys) && x in curr.foreignKeys && IsKeptKey(prev.foreignKeys, x)
    requires q in EditQueries(prev, curr)
    ensures !Adds(q, x.name)
  {
    if Adds(q, x.name) {
      var z := AddedNameIs(prev, curr, q, x.name);
      OneOfTheName(curr.foreignKeys, z, x);
      assert false;
    }
  }

  lemma KeptIsDropped(prev: Table, curr: Table, x: ForeignKey, y: ForeignKey)
    requires IsTableOfAnyIds(prev) && IsTableOfAnyIds(curr)
    requires x in curr.foreignKeys && y in curr.foreignKeys && x.id == y.id && x.name != y.name
    requires IsKeptKey(prev.foreignKeys, x)
    ensures var r := ExecuteAll(Publish(prev), EditQueries(prev, curr));
            r.Some? ==> !AreEdited(r.value.foreignKeys, prev.foreignKeys, curr.foreignKeys)
  {
    var queries := EditQueries(prev, curr);
    var k := ModifiedIsDropped(prev, curr, y);
    forall q | q in queries
      ensures !Adds(q, x.name)
    {
      KeptIsNotAdded(prev, curr, q, x);
    }
    if ExecuteAll(Publish(prev), queries).Some? {
      DroppedIsGone(Publish(prev), queries, k, x.name);
    }
  }

  /** A modified key is in a pair, for which the old key is dropped. */
  lemma ModifiedIsPaired(prev: seq<ForeignKey>, curr: seq<ForeignKey>, y: ForeignKey) returns (k: nat)
    requires y in curr && IsModifiedKey(prev, y)
    ensures var pairs := ModifiedKeysFrom(prev, curr, 0);
            k < |pairs| && pairs[k] == ForeignKeyPair(ForeignKeyById(prev, y.id).value, y)
  {
    var pairs := ModifiedKeysFrom(prev, curr, 0);
    var pair := ForeignKeyPair(ForeignKeyById(prev, y.id).value, y);
    var i :| 0 <= i < |curr| && curr[i] == y;
    ModifiedKeysAre(prev, curr, 0, pair);
    k :| 0 <= k < |pairs| && pairs[k] == pair;
  }

  lemma ModifiedIsDropped(prev: Table, curr: Table, y: ForeignKey) returns (k: nat)
    requires y in curr.foreignKeys && IsModifiedKey(prev.foreignKeys, y)
    ensures k < |EditQueries(prev, curr)|
    ensures Drops(EditQueries(prev, curr)[k], ForeignKeyById(prev.foreignKeys, y.id).value.name)
  {
    k := ModifiedIsPaired(prev.foreignKeys, curr.foreignKeys, y);
    DropQueryAt(ModifiedKeysFrom(prev.foreignKeys, curr.foreignKeys, 0), 0, k);
  }

  /** Statements that drop a name twice and do not add it fail. */
  lemma DropsTwice(t: ServerTable, drops: seq<Query>, a: nat, b: nat, name: string)
    requires a < |drops| && b < |drops| && a != b && Drops(drops[a], name) && Drops(drops[b], name)
    requires forall q | q in drops :: !Adds(q, name)
    ensures ExecuteAll(t, drops).None?
  {
    if ExecuteAll(t, drops).Some? {
      DroppedIsGone(t, drops, if a < b then a else b, name);
    }
  }

  lemma DroppedTwice(prev: Table, curr: Table, x: ForeignKey, y: ForeignKey)
    requires x in curr.foreignKeys && y in curr.foreignKeys && x != y && x.id == y.id
    requires IsModifiedKey(prev.foreignKeys, x) && IsModifiedKey(prev.foreignKeys, y)
    ensures ExecuteAll(Publish(prev), EditQueries(prev, curr)).None?
  {
    var pairs := ModifiedKeysFrom(prev.foreignKeys, curr.foreignKeys, 0);
    var name := ForeignKeyById(prev.foreignKeys, y.id).value.name;
    var a := ModifiedIsPaired(prev.foreignKeys, curr.foreignKeys, x);
    var b := ModifiedIsPaired(prev.foreignKeys, curr.foreignKeys, y);
    PairDrops(pairs, a, name);
    PairDrops(pairs, b, name);
    forall q | q in DropKeyQueries(pairs, 0)
      ensures !Adds(q, name)
    {
      DropQueriesDrop(pairs, q, name);
    }
    DropsTwice(Publish(prev), DropKeyQueries(pairs, 0), a, b, name);
    DropsComeFirst(prev, curr, pairs);
  }

  lemma PairDrops(pairs: seq<ForeignKeyPair>, k: nat, name: string)
    requires k < |pairs| && pairs[k].oldKey.name == name
    ensures |DropKeyQueries(pairs, 0)| == |pairs| && Drops(DropKeyQueries(pairs, 0)[k], name)
  {
    DropQueryAt(pairs, 0, k);
  }

  lemma DropsComeFirst(prev: Table, curr: Table, pairs: seq<ForeignKeyPair>)
    requires pairs == ModifiedKeysFrom(prev.foreignKeys, curr.foreignKeys, 0)
    requires ExecuteAll(Publish(prev), DropKeyQueries(pairs, 0)).None?
    ensures ExecuteAll(Publish(prev), EditQueries(prev, curr)).None?
  {
    var defaults := DropDefaultQueries(ModifiedColumnsFrom(prev.columns, curr.columns, 0), 0);
    Regroup(DropKeyQueries(pairs, 0), defaults, MainAlter(prev, curr));
    if ExecuteAll(Publish(prev), EditQueries(prev, curr)).Some? {
      FirstPartSucceeds(Publish(prev), DropKeyQueries(pairs, 0), defaults + MainAlter(prev, curr));
    }
  }

  // ---- ids that belong to one version only make no difference ----

  function MaxId(keys: seq<ForeignKey>): (n: nat)
    ensures forall k | k in keys :: k.id < n
  {
    if keys == [] then 0
    else
      var n := MaxId(keys[1..]);
      if keys[0].id < n then n else keys[0].id + 1
  }

  function Renumber(k: ForeignKey, other: seq<ForeignKey>, id: nat): ForeignKey
  {
    if HasId(other, k.id) then k else k.(id := id)
  }

  /** Keys whose id the other version does not have get one of their own. */
  function Renumbered(keys: seq<ForeignKey>, other: seq<ForeignKey>, base: nat): (r: seq<ForeignKey>)
    ensures |r| == |keys| && forall i | 0 <= i < |keys| :: r[i] == Renumber(keys[i], other, base + i)
  {
    seq(|keys|, i requires 0 <= i < |keys| => Renumber(keys[i], other, base + i))
  }

  /** Two versions, and the same ones with ids that tell all keys apart. */
  ghost predicate AreRenumbered(prev: seq<ForeignKey>, curr: seq<ForeignKey>, prev': seq<ForeignKey>,
                                curr': seq<ForeignKey>,
                                base: nat)
  {
    && (forall k | k in prev || k in curr :: k.id < base)
    && prev' == Renumbered(prev, curr, base) && curr' == Renumbered(curr, prev, base + |prev|)
  }

  lemma OnlyById(keys: seq<ForeignKey>, i: nat)
    requires i < |keys| && forall j | 0 <= j < i :: keys[j].id != keys[i].id
    ensures ForeignKeyById(keys, keys[i].id) == Some(keys[i])
  {
    if i > 0 {
      OnlyById(keys[1..], i - 1);
    }
  }

  lemma ById(keys: seq<ForeignKey>, id: nat, i: nat)
    requires i < |keys| && keys[i].id == id && IsOnly(keys, id)
    ensures ForeignKeyById(keys, id) == Some(keys[i])
  {
    OnlyById(keys, i);
  }

  lemma RenumberedIdsDiffer(keys: seq<ForeignKey>, other: seq<ForeignKey>, base: nat)
    requires (forall k | k in keys :: k.id < base) && forall k | k in keys && HasId(other, k.id) :: IsOnly(keys, k.id)
    ensures var r := Renumbered(keys, other, base); forall i, j | 0 <= i < j < |r| :: r[i].id != r[j].id
  {
    var r := Renumbered(keys, other, base);
    forall i, j | 0 <= i < j < |r|
      ensures r[i].id != r[j].id
    {
      assert keys[i] in keys && keys[j] in keys;
    }
  }

  /** Looking up a renumbered key in the other version finds what it found before. */
  lemma SameLookup(keys: seq<ForeignKey>, other: seq<ForeignKey>, base: nat, other': seq<ForeignKey>, base': nat,
                   i: nat)
    requires i < |keys| && other' == Renumbered(other, keys, base')
    requires forall k | k in keys || k in other :: k.id < base && k.id < base'
    requires base + |keys| <= base' || base' + |other| <= base
    requires HasId(other, keys[i].id) ==> IsOnly(other, keys[i].id)
    ensures ForeignKeyById(other', Renumber(keys[i], other, base + i).id) == ForeignKeyById(other, keys[i].id)
  {
    var k := keys[i];
    assert k in keys;
    var id := Renumber(k, other, base + i).id;
    if HasId(other, k.id) {
      var x := ForeignKeyById(other, k.id).value;
      var j :| 0 <= j < |other| && other[j] == x;
      KeptInPlace(keys, other, base', k, j);
      forall a | 0 <= a < |other'| && other'[a].id == id
        ensures a == j
      {
        assert other[a] in other;
        if HasId(keys, other[a].id) {
          assert other[a].id == id == other[j].id;
        }
      }
      ById(other', id, j);
    } else {
      forall y | y in other'
        ensures y.id != id
      {
        var a :| 0 <= a < |other'| && other'[a] == y;
        assert other[a] in other;
      }
    }
  }

  lemma KeptInPlace(keys: seq<ForeignKey>, other: seq<ForeignKey>, base: nat, k: ForeignKey, j: nat)
    requires k in keys && j < |other| && other[j].id == k.id
    ensures Renumbered(other, keys, base)[j] == other[j]
  {
    assert HasId(keys, other[j].id);
  }

  // ---- the same statements ----

  /** The same keys but for their ids. */
  ghost predicate Alike(a: seq<ForeignKey>, b: seq<ForeignKey>)
  {
    |a| == |b| && forall i | 0 <= i < |a| :: a[i] == b[i].(id := a[i].id)
  }

  lemma AlikeCons(x: ForeignKey, a: seq<ForeignKey>, y: ForeignKey, b: seq<ForeignKey>)
    requires x == y.(id := x.id) && Alike(a, b)
    ensures Alike([x] + a, [y] + b)
  {
  }

  lemma {:induction false} DropsAlike(a: seq<ForeignKey>, b: seq<ForeignKey>, i: nat)
    requires Alike(a, b) && i <= |a|
    ensures DropKeySpecs(a, i) == DropKeySpecs(b, i)
    decreases |a| - i
  {
    if i < |a| {
      DropsAlike(a, b, i + 1);
    }
  }

  lemma {:induction false} AddsAlike(columns: seq<Column>, a: seq<ForeignKey>, b: seq<ForeignKey>, i: nat)
    requires Alike(a, b) && i <= |a|
    ensures AddNewKeys(columns, a, i) == AddNewKeys(columns, b, i)
    decreases |a| - i
  {
    if i < |a| {
      AddsAlike(columns, a, b, i + 1);
    }
  }

  lemma {:induction false} PublishAlike(a: seq<ForeignKey>, b: seq<ForeignKey>, i: nat)
    requires Alike(a, b) && i <= |a|
    ensures PublishKeys(a, i) == PublishKeys(b, i)
    decreases |a| - i
  {
    if i < |a| {
      PublishAlike(a, b, i + 1);
    }
  }

  /** Each key finds in the other version what the key it was made from finds. */
  ghost predicate FindTheSame(keys': seq<ForeignKey>, other': seq<ForeignKey>, keys: seq<ForeignKey>,
                              other: seq<ForeignKey>)
  {
    && Alike(keys', keys)
    && forall i | 0 <= i < |keys| ::
         && ForeignKeyById(other', keys'[i].id) == ForeignKeyById(other, keys[i].id)
         && (HasId(other, keys[i].id) ==> keys'[i] == keys[i])
  }

  lemma {:induction false} RemovedAlike(keys': seq<ForeignKey>, other': seq<ForeignKey>, keys: seq<ForeignKey>,
                                        other: seq<ForeignKey>,
                                        i: nat)
    requires FindTheSame(keys', other', keys, other) && i <= |keys|
    ensures Alike(RemovedKeysFrom(keys', other', i), RemovedKeysFrom(keys, other, i))
    decreases |keys| - i
  {
    if i < |keys| {
      RemovedAlike(keys', other', keys, other, i + 1);
      if !HasId(other, keys[i].id) {
        AlikeCons(keys'[i], RemovedKeysFrom(keys', other', i + 1), keys[i], RemovedKeysFrom(keys, other, i + 1));
      }
    }
  }

  lemma {:induction false} ModifiedAlike(keys': seq<ForeignKey>, other': seq<ForeignKey>, keys: seq<ForeignKey>,
                                         other: seq<ForeignKey>,
                                         i: nat)
    requires FindTheSame(keys', other', keys, other) && i <= |keys|
    ensures ModifiedKeysFrom(other', keys', i) == ModifiedKeysFrom(other, keys, i)
    decreases |keys| - i
  {
    if i < |keys| {
      ModifiedAlike(keys', other', keys, other, i + 1);
    }
  }

  lemma SameStatements(prev: Table, curr: Table, prevKeys: seq<ForeignKey>, currKeys: seq<ForeignKey>)
    requires FindTheSame(prevKeys, currKeys, prev.foreignKeys, curr.foreignKeys)
    requires FindTheSame(currKeys, prevKeys, curr.foreignKeys, prev.foreignKeys)
    ensures Publish(prev.(foreignKeys := prevKeys)) == Publish(prev)
    ensures EditQueries(prev.(foreignKeys := prevKeys), curr.(foreignKeys := currKeys)) == EditQueries(prev, curr)
  {
    PublishAlike(prevKeys, prev.foreignKeys, 0);
    RemovedAlike(prevKeys, currKeys, prev.foreignKeys, curr.foreignKeys, 0);
    DropsAlike(RemovedKeysFrom(prevKeys, currKeys, 0), RemovedKeysFrom(prev.foreignKeys, curr.foreignKeys, 0), 0);
    RemovedAlike(currKeys, prevKeys, curr.foreignKeys, prev.foreignKeys, 0);
    AddsAlike(curr.columns, RemovedKeysFrom(currKeys, prevKeys, 0),
      RemovedKeysFrom(curr.foreignKeys, prev.foreignKeys, 0), 0);
    ModifiedAlike(currKeys, prevKeys, curr.foreignKeys, prev.foreignKeys, 0);
  }

  lemma SameKept(prev: seq<ForeignKey>, curr: seq<ForeignKey>, prevKeys: seq<ForeignKey>, currKeys: seq<ForeignKey>,
                 i: nat)
    requires FindTheSame(currKeys, prevKeys, curr, prev) && i < |curr|
    ensures IsKeptKey(prevKeys, currKeys[i]) == IsKeptKey(prev, curr[i])
    ensures FinalKey(prevKeys, currKeys[i]) == FinalKey(prev, curr[i]) && currKeys[i].name == curr[i].name
  {
  }

  /** Whether key i of the new version takes the name of key j, which is removed. */
  ghost predicate Takes(prev: seq<ForeignKey>, curr: seq<ForeignKey>, i: nat, j: nat)
    requires i < |curr| && j < |prev|
  {
    !IsKeptKey(prev, curr[i]) && ForeignKeyById(curr, prev[j].id).None? && curr[i].name == prev[j].name
  }

  lemma TakesIff(prev: seq<ForeignKey>, curr: seq<ForeignKey>)
    ensures RemovedNamesStayFree(prev, curr)
            <==> forall i, j | 0 <= i < |curr| && 0 <= j < |prev| :: !Takes(prev, curr, i, j)
  {
    if RemovedNamesStayFree(prev, curr) {
      forall i, j | 0 <= i < |curr| && 0 <= j < |prev|
        ensures !Takes(prev, curr, i, j)
      {
        assert curr[i] in curr && prev[j] in prev;
      }
    } else {
      var k, y :| k in curr && y in prev && !IsKeptKey(prev, k) && ForeignKeyById(curr, y.id).None? && k.name == y.name;
      var i :| 0 <= i < |curr| && curr[i] == k;
      var j :| 0 <= j < |prev| && prev[j] == y;
      assert Takes(prev, curr, i, j);
    }
  }

  lemma SameFreeNames(prev: seq<ForeignKey>, curr: seq<ForeignKey>, prevKeys: seq<ForeignKey>,
                      currKeys: seq<ForeignKey>)
    requires FindTheSame(prevKeys, currKeys, prev, curr) && FindTheSame(currKeys, prevKeys, curr, prev)
    ensures RemovedNamesStayFree(prevKeys, currKeys) <==> RemovedNamesStayFree(prev, curr)
  {
    forall i, j | 0 <= i < |curr| && 0 <= j < |prev|
      ensures Takes(prevKeys, currKeys, i, j) == Takes(prev, curr, i, j)
    {
      SameKept(prev, curr, prevKeys, currKeys, i);
    }
    TakesIff(prev, curr);
    TakesIff(prevKeys, currKeys);
  }

  lemma SameKeysEdited(m: map<string, ServerKey>, prev: seq<ForeignKey>, curr: seq<ForeignKey>,
                       prevKeys: seq<ForeignKey>, currKeys: seq<ForeignKey>)
    requires FindTheSame(currKeys, prevKeys, curr, prev) && AreEdited(m, prevKeys, currKeys)
    ensures AreEdited(m, prev, curr)
  {
    forall k | k in curr
      ensures k.name in m && m[k.name] == FinalKey(prev, k)
    {
      var i :| 0 <= i < |curr| && curr[i] == k;
      SameKept(prev, curr, prevKeys, currKeys, i);
      assert currKeys[i] in currKeys && currKeys[i] in ToSet(currKeys);
    }
    forall name | name in m
      ensures exists k | k in curr :: (k in ToSet(curr) || IsKeptKey(prev, k)) && k.name == name
    {
      var x :| x in currKeys && (x in ToSet(currKeys) || IsKeptKey(prevKeys, x)) && x.name == name;
      var i :| 0 <= i < |currKeys| && currKeys[i] == x;
      assert curr[i] in curr && curr[i] in ToSet(curr);
    }
  }

  lemma EveryIdIsThere(keys: seq<ForeignKey>)
    ensures forall k | k in keys :: HasId(keys, k.id)
  {
  }

  /** Each renumbered key finds in the other version what it found before. */
  lemma RenumberedFind(keys: seq<ForeignKey>, other: seq<ForeignKey>, base: nat, base': nat)
    requires forall k | k in keys || k in other :: k.id < base && k.id < base'
    requires base + |keys| <= base' || base' + |other| <= base
    requires forall k | k in keys && HasId(other, k.id) :: IsOnly(other, k.id)
    ensures FindTheSame(Renumbered(keys, other, base), Renumbered(other, keys, base'), keys, other)
  {
    forall i | 0 <= i < |keys|
      ensures ForeignKeyById(Renumbered(other, keys, base'), Renumber(keys[i], other, base + i).id)
              == ForeignKeyById(other, keys[i].id)
    {
      assert keys[i] in keys;
      SameLookup(keys, other, base, Renumbered(other, keys, base'), base', i);
    }
  }

  /** With ids that pair, the foreign keys of both versions can be given ids that differ. */
  lemma CanBeRenumbered(prev: seq<ForeignKey>, curr: seq<ForeignKey>)
      returns (prevKeys: seq<ForeignKey>, currKeys: seq<ForeignKey>)
    requires IdsPair(prev, curr)
    ensures FindTheSame(prevKeys, currKeys, prev, curr) && FindTheSame(currKeys, prevKeys, curr, prev)
    ensures forall i, j | 0 <= i < j < |prevKeys| :: prevKeys[i].id != prevKeys[j].id
    ensures forall i, j | 0 <= i < j < |currKeys| :: currKeys[i].id != currKeys[j].id
  {
    var base := MaxId(prev) + MaxId(curr);
    var next := base + |prev|;
    prevKeys, currKeys := Renumbered(prev, curr, base), Renumbered(curr, prev, next);
    EveryIdIsThere(prev);
    EveryIdIsThere(curr);
    RenumberedIdsDiffer(prev, curr, base);
    RenumberedIdsDiffer(curr, prev, next);
    RenumberedFind(prev, curr, base, next);
    RenumberedFind(curr, prev, next, base);
  }

  lemma RenumberedIsTable(t: Table, keys: seq<ForeignKey>)
    requires IsTableOfAnyIds(t) && Alike(keys, t.foreignKeys)
    requires forall i, j | 0 <= i < j < |keys| :: keys[i].id != keys[j].id
    ensures IsTable(t.(foreignKeys := keys))
  {
  }

  lemma PairingReplays(prev: Table, curr: Table)
    requires IsTableOfAnyIds(prev) && IsTableOfAnyIds(curr) && IdsPair(prev.foreignKeys, curr.foreignKeys)
    requires forall x | x in prev.indexes :: x.columnIds != []
    ensures var r := ExecuteAll(Publish(prev), EditQueries(prev, curr));
            && (r.Some? <==> RemovedNamesStayFree(prev.foreignKeys, curr.foreignKeys))
            && (r.Some? ==> IsEdited(r.value, prev, curr))
  {
    var prevKeys, currKeys := CanBeRenumbered(prev.foreignKeys, curr.foreignKeys);
    var prev', curr' := prev.(foreignKeys := prevKeys), curr.(foreignKeys := currKeys);
    RenumberedIsTable(prev, prevKeys);
    RenumberedIsTable(curr, currKeys);
    SameStatements(prev, curr, prevKeys, currKeys);
    SameFreeNames(prev.foreignKeys, curr.foreignKeys, prevKeys, currKeys);
    EditReplay(prev', curr');
    var r := ExecuteAll(Publish(prev), EditQueries(prev, curr));
    if r.Some? {
      SameEdit(r.value, prev, curr, prevKeys, currKeys);
    }
  }

  lemma SameEdit(t: ServerTable, prev: Table, curr: Table, prevKeys: seq<ForeignKey>, currKeys: seq<ForeignKey>)
    requires FindTheSame(currKeys, prevKeys, curr.foreignKeys, prev.foreignKeys)
    requires IsEdited(t, prev.(foreignKeys := prevKeys), curr.(foreignKeys := currKeys))
    ensures IsEdited(t, prev, curr)
  {
    SameKeysEdited(t.foreignKeys, prev.foreignKeys, curr.foreignKeys, prevKeys, currKeys);
  }

  // ---- the result ----

  /** Whatever ids the foreign keys have, the statements of an edit succeed and give the new
      foreign keys if and only if every id that both versions have belongs to one key of each,
      and no key takes the name of a removed one. The rest of the table is then right, too. */
  lemma AnyIdsReplayIff(prev: Table, curr: Table)
    requires IsTableOfAnyIds(prev) && IsTableOfAnyIds(curr) && forall x | x in prev.indexes :: x.columnIds != []
    ensures var r := ExecuteAll(Publish(prev), EditQueries(prev, curr));
            && (r.Some? && AreEdited(r.value.foreignKeys, prev.foreignKeys, curr.foreignKeys)
                <==> IdsPair(prev.foreignKeys, curr.foreignKeys)
                     && RemovedNamesStayFree(prev.foreignKeys, curr.foreignKeys))
            && (IdsPair(prev.foreignKeys, curr.foreignKeys) && r.Some? ==> IsEdited(r.value, prev, curr))
  {
    if IdsPair(prev.foreignKeys, curr.foreignKeys) {
      PairingReplays(prev, curr);
    } else {
      var id :| HasId(prev.foreignKeys, id) && HasId(curr.foreignKeys, id)
                && !(IsOnly(prev.foreignKeys, id) && IsOnly(curr.foreignKeys, id));
      if !IsOnly(prev.foreignKeys, id) {
        var i, j :| 0 <= i < j < |prev.foreignKeys| && prev.foreignKeys[i].id == id && prev.foreignKeys[j].id == id;
        SecondStays(prev, curr, i, j);
      } else {
        var i, j :| 0 <= i < j < |curr.foreignKeys| && curr.foreignKeys[i].id == id && curr.foreignKeys[j].id == id;
        DroppedTooOften(prev, curr, i, j);
      }
    }
  }

  /** Parsed foreign keys all have id 0, so a table with two of them can only be edited by
      removing all of them. */
  lemma ParsedKeysIff(prev: Table, curr: Table)
    requires IsTableOfAnyIds(prev) && IsTableOfAnyIds(curr) && forall x | x in prev.indexes :: x.columnIds != []
    requires |prev.foreignKeys| >= 2 && forall k | k in prev.foreignKeys :: k.id == 0
    ensures var r := ExecuteAll(Publish(prev), EditQueries(prev, curr));
            r.Some? && AreEdited(r.value.foreignKeys, prev.foreignKeys, curr.foreignKeys)
            <==> forall x, y | x in curr.foreignKeys && y in prev.foreignKeys :: x.id != 0 && x.name != y.name
  {
    var ps, cs := prev.foreignKeys, curr.foreignKeys;
    AnyIdsReplayIff(prev, curr);
    assert ps[0] in ps && ps[1] in ps && !IsOnly(ps, 0) && HasId(ps, 0);
    if HasId(cs, 0) {
      var x := ForeignKeyById(cs, 0).value;
      assert x in cs && x.id == 0;
    } else {
      assert IdsPair(ps, cs);
      assert forall x | x in cs :: x.id != 0 && !IsKeptKey(ps, x);
    }
  }

  /** For example, a foreign key replaced by a new one of its name is not accepted. */
  lemma ReplacedKeyExample(c: Column, k: ForeignKey, id: nat)
    requires k.columnIds == [c.id] && id != k.id
    ensures ExecuteAll(Publish(Table([c], [], [k])), EditQueries(Table([c], [], [k]), Table([c], [], [k.(id := id)])))
            == None
  {
    var prev, curr := Table([c], [], [k]), Table([c], [], [k.(id := id)]);
    assert ColumnById([c], c.id) == Some(c);
    EditReplay(prev, curr);
    assert k in prev.foreignKeys && k.(id := id) in curr.foreignKeys;
    assert !IsKeptKey(prev.foreignKeys, k.(id := id)) && ForeignKeyById(curr.foreignKeys, k.id).None?;
  }
}
