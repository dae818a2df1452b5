/** Replaying the column clauses of an edit on the old columns gives the new ones. */
module AlterColumns {
  import opened QtStrings
  import opened Schema
  import opened TableEntityComparator
  import opened AlterServer
  import opened MySQLTableEditor

  ghost predicate IdsDistinct(columns: seq<Column>)
  {
    forall i, j | 0 <= i < j < |columns| :: columns[i].id != columns[j].id
  }

  /** Ids and names tell the columns of a table apart. */
  ghost predicate AreColumns(columns: seq<Column>)
  {
    IdsDistinct(columns) && NamesDistinct(columns)
  }

  function Definitions(columns: seq<Column>): seq<Column>
  {
    if columns == [] then [] else [Definition(columns[0])] + Definitions(columns[1..])
  }

  /** The columns from index i on that are, or are not, in both versions unchanged. */
  function KeptFrom(other: seq<Column>, columns: seq<Column>, i: nat): seq<Column>
    requires i <= |columns|
    decreases |columns| - i
  {
    if i == |columns| then []
    else if IsKept(other, columns[i]) then [columns[i]] + KeptFrom(other, columns, i + 1)
    else KeptFrom(other, columns, i + 1)
  }

  function ChangedFrom(other: seq<Column>, columns: seq<Column>, i: nat): seq<Column>
    requires i <= |columns|
    decreases |columns| - i
  {
    if i == |columns| then []
    else if IsKept(other, columns[i]) then ChangedFrom(other, columns, i + 1)
    else [columns[i]] + ChangedFrom(other, columns, i + 1)
  }

  /** The unmodified common columns come in the same order in both versions. */
  ghost predicate KeepsOrder(prev: seq<Column>, curr: seq<Column>)
  {
    KeptFrom(curr, prev, 0) == KeptFrom(prev, curr, 0)
  }

  /** The columns on the server when the main statement starts: the old definitions,
      but a modified column may have lost its default. */
  ghost predicate IsPrepared(server: seq<Column>, prev: seq<Column>, curr: seq<Column>)
  {
    && |server| == |prev|
    && forall i | 0 <= i < |prev| ::
         && server[i].id == prev[i].id && server[i].name == prev[i].name
         && (IsKept(curr, prev[i]) ==> server[i] == Definition(prev[i]))
  }

  // ---- lookups ----

  lemma {:induction false} ColumnByIdAt(columns: seq<Column>, i: nat)
    requires IdsDistinct(columns) && i < |columns|
    ensures ColumnById(columns, columns[i].id) == Some(columns[i])
  {
    var c := ColumnById(columns, columns[i].id);
    assert columns[i] in columns;
    assert c.Some?;
    var j :| 0 <= j < |columns| && columns[j] == c.value;
    assert j == i;
  }

  lemma {:induction false} ColumnByNameAt(columns: seq<Column>, i: nat)
    requires NamesDistinct(columns) && i < |columns|
    ensures ColumnByName(columns, columns[i].name) == Some(columns[i])
  {
    var c := ColumnByName(columns, columns[i].name);
    assert columns[i] in columns;
    assert c.Some?;
    var j :| 0 <= j < |columns| && columns[j] == c.value;
    assert j == i;
  }

  /** An unmodified column is the same in both versions. */
  lemma KeptIsSame(other: seq<Column>, c: Column)
    requires IsKept(other, c)
    ensures ColumnById(other, c.id) == Some(c) && c in other
  {
  }

  lemma KeptBothWays(prev: seq<Column>, curr: seq<Column>, c: Column)
    requires IdsDistinct(prev) && IdsDistinct(curr)
    ensures c in prev && IsKept(curr, c) <==> c in curr && IsKept(prev, c)
  {
    if c in prev && IsKept(curr, c) {
      KeptIsSame(curr, c);
      var i :| 0 <= i < |prev| && prev[i] == c;
      ColumnByIdAt(prev, i);
    }
    if c in curr && IsKept(prev, c) {
      KeptIsSame(prev, c);
      var i :| 0 <= i < |curr| && curr[i] == c;
      ColumnByIdAt(curr, i);
    }
  }

  // ---- which old columns the clauses name ----

  /** A modified column is changed by its old name. */
  predicate IsChangedFor(prev: seq<Column>, c: Column, name: string)
  {
    var s := StatusOfColumn(prev, c); s.modified && s.oldCol.value.name == name
  }

  lemma ChangesOne(x: ColumnSpec, rest: seq<ColumnSpec>, name: string)
    ensures name in ChangedNames([x] + rest) <==> (x.ChangeColumn? && x.oldName == name) || name in ChangedNames(rest)
  {
    var specs := [x] + rest;
    assert specs[0] == x && specs[1..] == rest;
    if x.ChangeColumn? {
      assert x in specs;
    }
    forall y | y in rest
      ensures y in specs
    {
    }
  }

  lemma {:induction false} ChangedNamesAre(prev: seq<Column>, curr: seq<Column>, i: nat, name: string)
    requires i <= |curr|
    ensures name in ChangedNames(ColumnSpecs(prev, curr, i)) <==>
            exists k | i <= k < |curr| :: IsChangedFor(prev, curr[k], name)
    decreases |curr| - i
  {
    if i < |curr| {
      ChangedNamesAre(prev, curr, i + 1, name);
      var s := StatusOfColumn(prev, curr[i]);
      if s.modified || s.added {
        ChangesOne(ColumnSpecs(prev, curr, i)[0], ColumnSpecs(prev, curr, i + 1), name);
      }
    }
  }

  lemma {:induction false} DroppedNamesAre(removed: seq<Column>, i: nat, name: string)
    requires i <= |removed|
    ensures name in DroppedNames(removed, i) <==> exists k | i <= k < |removed| :: removed[k].name == name
    decreases |removed| - i
  {
    if i < |removed| {
      DroppedNamesAre(removed, i + 1, name);
    }
  }

  lemma {:induction false} RemovedColumnsAre(prev: seq<Column>, curr: seq<Column>, i: nat, c: Column)
    requires i <= |prev|
    ensures c in RemovedColumnsFrom(prev, curr, i) <==>
            ColumnById(curr, c.id).None? && exists k | i <= k < |prev| :: prev[k] == c
    decreases |prev| - i
  {
    if i < |prev| {
      RemovedColumnsAre(prev, curr, i + 1, c);
    }
  }

  ghost function NamedColumns(prev: seq<Column>, curr: seq<Column>): set<string>
  {
    ChangedNames(ColumnSpecs(prev, curr, 0)) + ToSet(DroppedNames(RemovedColumnsFrom(prev, curr, 0), 0))
  }

  lemma IsDroppedName(prev: seq<Column>, curr: seq<Column>, name: string)
    ensures name in DroppedNames(RemovedColumnsFrom(prev, curr, 0), 0) <==>
            exists k | 0 <= k < |prev| :: prev[k].name == name && ColumnById(curr, prev[k].id).None?
  {
    var removed := RemovedColumnsFrom(prev, curr, 0);
    DroppedNamesAre(removed, 0, name);
    if name in DroppedNames(removed, 0) {
      var k :| 0 <= k < |removed| && removed[k].name == name;
      RemovedColumnsAre(prev, curr, 0, removed[k]);
    }
    if k :| 0 <= k < |prev| && prev[k].name == name && ColumnById(curr, prev[k].id).None? {
      RemovedColumnsAre(prev, curr, 0, prev[k]);
      var j :| 0 <= j < |removed| && removed[j] == prev[k];
    }
  }

  /** The clauses name exactly the old columns that are modified or removed. */
  lemma NamedIffNotKept(prev: seq<Column>, curr: seq<Column>, i: nat)
    requires AreColumns(prev) && IdsDistinct(curr) && i < |prev|
    ensures prev[i].name in NamedColumns(prev, curr) <==> !IsKept(curr, prev[i])
  {
    var name := prev[i].name;
    ChangedNamesAre(prev, curr, 0, name);
    IsDroppedName(prev, curr, name);
    ColumnByIdAt(prev, i);
    if k :| 0 <= k < |curr| && IsChangedFor(prev, curr[k], name) {
      var o := StatusOfColumn(prev, curr[k]).oldCol.value;
      var j :| 0 <= j < |prev| && prev[j] == o;
      assert j == i;
      ColumnByIdAt(curr, k);
    }
    var c := ColumnById(curr, prev[i].id);
    if c.Some? && ColumnDiffers(c.value, prev[i]) {
      var k :| 0 <= k < |curr| && curr[k] == c.value;
      assert IsChangedFor(prev, curr[k], name);
    }
  }

  // ---- lists of definitions ----

  lemma {:induction false} DefinitionsAppend(a: seq<Column>, b: seq<Column>)
    ensures Definitions(a + b) == Definitions(a) + Definitions(b)
  {
    if a == [] {
      assert a + b == b;
    } else {
      assert (a + b)[1..] == a[1..] + b;
      DefinitionsAppend(a[1..], b);
    }
  }

  lemma {:induction false} DefinitionsAt(columns: seq<Column>)
    ensures |Definitions(columns)| == |columns|
    ensures forall i | 0 <= i < |columns| :: Definitions(columns)[i] == Definition(columns[i])
  {
    if columns != [] {
      DefinitionsAt(columns[1..]);
    }
  }

  lemma DefinitionsPrefix(columns: seq<Column>, i: nat)
    requires i < |columns|
    ensures Definitions(columns[..i + 1]) == Definitions(columns[..i]) + [Definition(columns[i])]
  {
    assert columns[..i + 1] == columns[..i] + [columns[i]];
    DefinitionsAppend(columns[..i], [columns[i]]);
    assert Definitions([columns[i]]) == [Definition(columns[i])];
  }

  /** What stays in place is the old definitions of the unmodified columns. */
  lemma {:induction false} UntouchedAre(server: seq<Column>, prev: seq<Column>, curr: seq<Column>, i: nat)
    requires AreColumns(prev) && IdsDistinct(curr) && IsPrepared(server, prev, curr) && i <= |prev|
    ensures Untouched(server, NamedColumns(prev, curr), i) == Definitions(KeptFrom(curr, prev, i))
    decreases |prev| - i
  {
    if i < |prev| {
      NamedIffNotKept(prev, curr, i);
      UntouchedAre(server, prev, curr, i + 1);
      if IsKept(curr, prev[i]) {
        var rest := KeptFrom(curr, prev, i + 1);
        assert ([prev[i]] + rest)[1..] == rest;
      }
    }
  }

  // ---- one clause ----

  lemma {:induction false} PreparedByName(server: seq<Column>, prev: seq<Column>, curr: seq<Column>, i: nat)
    requires AreColumns(prev) && IsPrepared(server, prev, curr) && i < |prev|
    ensures ColumnByName(server, prev[i].name) == Some(server[i])
  {
    ColumnByNameAt(server, i);
  }

  /** The clause of a modified or added column puts its new definition in place. */
  lemma SpecPlaces(server: seq<Column>, prev: seq<Column>, curr: seq<Column>, i: nat)
    requires AreColumns(prev) && IsPrepared(server, prev, curr) && i < |curr| && !IsKept(prev, curr[i])
    ensures var specs := ColumnSpecs(prev, curr, i);
            && specs != [] && specs[1..] == ColumnSpecs(prev, curr, i + 1)
            && specs[0].place == PlaceAt(curr, i)
            && PlacedColumn(server, specs[0]) == Some(Definition(curr[i]))
  {
    var s := StatusOfColumn(prev, curr[i]);
    if s.modified {
      var k :| 0 <= k < |prev| && prev[k] == s.oldCol.value;
      PreparedByName(server, prev, curr, k);
    }
  }

  lemma KeptHasNoSpec(prev: seq<Column>, curr: seq<Column>, i: nat)
    requires i < |curr| && IsKept(prev, curr[i])
    ensures ColumnSpecs(prev, curr, i) == ColumnSpecs(prev, curr, i + 1)
  {
  }

  lemma {:induction false} InsertAfterAt(front: seq<Column>, back: seq<Column>, c: Column, name: string)
    requires front != [] && front[|front| - 1].name == name
    requires forall k | 0 <= k < |front| - 1 :: front[k].name != name
    ensures InsertAfter(front + back, c, name) == Some(front + [c] + back)
    decreases front
  {
    var whole := front + back;
    assert whole[0] == front[0];
    if |front| == 1 {
      assert whole[1..] == back;
      assert front + [c] + back == [front[0], c] + back;
    } else {
      assert whole[1..] == front[1..] + back;
      InsertAfterAt(front[1..], back, c, name);
      assert front + [c] + back == [front[0]] + (front[1..] + [c] + back);
    }
  }

  // ---- the exact list, when unmodified columns keep their order ----

  lemma PlaceOneExactly(curr: seq<Column>, i: nat, back: seq<Column>)
    requires NamesDistinct(curr) && i < |curr|
    ensures Insert(Definitions(curr[..i]) + back, Definition(curr[i]), PlaceAt(curr, i))
         == Some(Definitions(curr[..i + 1]) + back)
  {
    var front := Definitions(curr[..i]);
    DefinitionsAt(curr[..i]);
    DefinitionsPrefix(curr, i);
    if i == 0 {
      assert front + back == back;
      assert Definitions(curr[..1]) + back == [Definition(curr[0])] + back;
    } else {
      assert forall k | 0 <= k < i :: front[k] == Definition(curr[k]);
      InsertAfterAt(front, back, Definition(curr[i]), curr[i - 1].name);
    }
  }

  lemma KeptComesNext(curr: seq<Column>, i: nat, rest: seq<Column>)
    requires i < |curr|
    ensures Definitions(curr[..i]) + Definitions([curr[i]] + rest) == Definitions(curr[..i + 1]) + Definitions(rest)
  {
    DefinitionsPrefix(curr, i);
    assert ([curr[i]] + rest)[1..] == rest;
    Regroup(Definitions(curr[..i]), [Definition(curr[i])], Definitions(rest));
  }

  lemma {:induction false} PlaceExactly(server: seq<Column>, prev: seq<Column>, curr: seq<Column>, i: nat)
    requires AreColumns(prev) && AreColumns(curr) && IsPrepared(server, prev, curr) && i <= |curr|
    ensures PlaceColumns(server, Definitions(curr[..i]) + Definitions(KeptFrom(prev, curr, i)),
            ColumnSpecs(prev, curr, i))
         == Some(Definitions(curr))
    decreases |curr| - i
  {
    var list := Definitions(curr[..i]) + Definitions(KeptFrom(prev, curr, i));
    if i == |curr| {
      assert curr[..i] == curr;
      assert list == Definitions(curr);
    } else {
      PlaceExactly(server, prev, curr, i + 1);
      var rest := KeptFrom(prev, curr, i + 1);
      if IsKept(prev, curr[i]) {
        KeptHasNoSpec(prev, curr, i);
        KeptComesNext(curr, i, rest);
      } else {
        SpecPlaces(server, prev, curr, i);
        PlaceOneExactly(curr, i, Definitions(rest));
      }
    }
  }

  // ---- a permutation, without an assumption on the order ----

  lemma {:induction false} CountOfDistinct(columns: seq<Column>, x: Column)
    requires IdsDistinct(columns)
    ensures multiset(columns)[x] == if x in columns then 1 else 0
    decreases columns
  {
    if columns != [] {
      assert columns == [columns[0]] + columns[1..];
      CountOfDistinct(columns[1..], x);
      assert columns[0] !in columns[1..];
    }
  }

  lemma {:induction false} KeptAre(other: seq<Column>, columns: seq<Column>, i: nat)
    requires IdsDistinct(columns) && i <= |columns|
    ensures IdsDistinct(KeptFrom(other, columns, i))
    ensures forall c :: c in KeptFrom(other, columns, i) <==> c in columns[i..] && IsKept(other, c)
    decreases |columns| - i
  {
    if i < |columns| {
      KeptAre(other, columns, i + 1);
      assert columns[i..] == [columns[i]] + columns[i + 1..];
      var rest := KeptFrom(other, columns, i + 1);
      if IsKept(other, columns[i]) {
        forall k | 0 <= k < |rest|
          ensures rest[k].id != columns[i].id
        {
          assert rest[k] in columns[i + 1..];
        }
      }
    }
  }

  lemma DefinitionIn(a: seq<Column>, b: seq<Column>, x: Column)
    requires (forall c | c in a :: c in b) && x in Definitions(a)
    ensures x in Definitions(b)
  {
    DefinitionsAt(a);
    DefinitionsAt(b);
    var i :| 0 <= i < |a| && Definitions(a)[i] == x;
    assert a[i] in a;
    var j :| 0 <= j < |b| && b[j] == a[i];
    assert Definitions(b)[j] == x;
  }

  /** Both versions hold the same unmodified columns. */
  lemma KeptSame(prev: seq<Column>, curr: seq<Column>)
    requires IdsDistinct(prev) && IdsDistinct(curr)
    ensures multiset(Definitions(KeptFrom(curr, prev, 0))) == multiset(Definitions(KeptFrom(prev, curr, 0)))
  {
    var a, b := KeptFrom(curr, prev, 0), KeptFrom(prev, curr, 0);
    KeptAre(curr, prev, 0);
    KeptAre(prev, curr, 0);
    DefinitionsAt(a);
    DefinitionsAt(b);
    assert prev[0..] == prev && curr[0..] == curr;
    forall x
      ensures x in a <==> x in b
    {
      KeptBothWays(prev, curr, x);
    }
    forall x
      ensures multiset(Definitions(a))[x] == multiset(Definitions(b))[x]
    {
      if x in Definitions(a) { DefinitionIn(a, b, x); }
      if x in Definitions(b) { DefinitionIn(b, a, x); }
      CountOfDistinct(Definitions(a), x);
      CountOfDistinct(Definitions(b), x);
    }
  }

  lemma DefinitionFirst(c: Column, columns: seq<Column>)
    ensures multiset(Definitions([c] + columns)) == multiset{Definition(c)} + multiset(Definitions(columns))
  {
    assert ([c] + columns)[1..] == columns;
  }

  lemma AddedToEither<T>(x: multiset<T>, kept: multiset<T>, changed: multiset<T>, all: multiset<T>)
    requires kept + changed == all
    ensures (x + kept) + changed == x + all && kept + (x + changed) == x + all
  {
  }

  lemma OneMoreOfEither(c: Column, kept: seq<Column>, changed: seq<Column>, all: seq<Column>)
    requires multiset(Definitions(kept)) + multiset(Definitions(changed)) == multiset(Definitions(all))
    ensures multiset(Definitions([c] + kept)) + multiset(Definitions(changed)) == multiset(Definitions([c] + all))
    ensures multiset(Definitions(kept)) + multiset(Definitions([c] + changed)) == multiset(Definitions([c] + all))
  {
    DefinitionFirst(c, kept);
    DefinitionFirst(c, changed);
    DefinitionFirst(c, all);
    AddedToEither(multiset{Definition(c)}, multiset(Definitions(kept)), multiset(Definitions(changed)),
                  multiset(Definitions(all)));
  }

  lemma {:induction false} KeptAndChanged(other: seq<Column>, columns: seq<Column>, i: nat)
    requires i <= |columns|
    ensures multiset(Definitions(KeptFrom(other, columns, i))) + multiset(Definitions(ChangedFrom(other, columns, i)))
         == multiset(Definitions(columns[i..]))
    decreases |columns| - i
  {
    if i < |columns| {
      KeptAndChanged(other, columns, i + 1);
      assert columns[i..][1..] == columns[i + 1..];
      var c, kept, changed := columns[i], KeptFrom(other, columns, i + 1), ChangedFrom(other, columns, i + 1);
      OneMoreOfEither(c, kept, changed, columns[i + 1..]);
      assert columns[i..] == [c] + columns[i + 1..];
      if IsKept(other, c) {
        assert KeptFrom(other, columns, i) == [c] + kept && ChangedFrom(other, columns, i) == changed;
      } else {
        assert KeptFrom(other, columns, i) == kept && ChangedFrom(other, columns, i) == [c] + changed;
      }
    }
  }

  lemma {:induction false} InsertAfterFinds(columns: seq<Column>, c: Column, name: string)
    requires exists x | x in columns :: x.name == name
    ensures InsertAfter(columns, c, name).Some?
    ensures multiset(InsertAfter(columns, c, name).value) == multiset(columns) + multiset{c}
    decreases columns
  {
    assert columns == [columns[0]] + columns[1..];
    if columns[0].name != name {
      var x :| x in columns && x.name == name;
      assert x in columns[1..];
      InsertAfterFinds(columns[1..], c, name);
    } else {
      assert [columns[0], c] + columns[1..] == [columns[0]] + [c] + columns[1..];
    }
  }

  lemma {:induction false} ChangedAre(other: seq<Column>, columns: seq<Column>, i: nat, x: Column)
    requires i <= |columns| && x in ChangedFrom(other, columns, i)
    ensures exists k | i <= k < |columns| :: columns[k] == x && !IsKept(other, x)
    decreases |columns| - i
  {
    if !(!IsKept(other, columns[i]) && x == columns[i]) {
      ChangedAre(other, columns, i + 1, x);
    }
  }

  /** Every column already placed, or never moved, is in the list being built. */
  lemma EarlierIsPlaced(list: seq<Column>, prev: seq<Column>, curr: seq<Column>, i: nat, k: nat)
    requires IdsDistinct(curr) && k < i <= |curr|
    requires multiset(list) + multiset(Definitions(ChangedFrom(prev, curr, i))) == multiset(Definitions(curr))
    ensures Definition(curr[k]) in list
  {
    var x := Definition(curr[k]);
    var changed := ChangedFrom(prev, curr, i);
    DefinitionsAt(curr);
    DefinitionsAt(changed);
    assert x == Definitions(curr)[k];
    if x in Definitions(changed) {
      var j :| 0 <= j < |changed| && Definitions(changed)[j] == x;
      ChangedAre(prev, curr, i, changed[j]);
    }
    assert x in multiset(Definitions(curr));
  }

  /** Placing the next changed column succeeds and adds it to the list. */
  lemma PlaceOne(list: seq<Column>, prev: seq<Column>, curr: seq<Column>, i: nat)
    requires IdsDistinct(curr) && i < |curr| && !IsKept(prev, curr[i])
    requires multiset(list) + multiset(Definitions(ChangedFrom(prev, curr, i))) == multiset(Definitions(curr))
    ensures var placed := Insert(list, Definition(curr[i]), PlaceAt(curr, i));
            && placed.Some?
            && multiset(placed.value) + multiset(Definitions(ChangedFrom(prev, curr, i + 1)))
               == multiset(Definitions(curr))
  {
    var c := Definition(curr[i]);
    var rest := ChangedFrom(prev, curr, i + 1);
    assert ([curr[i]] + rest)[1..] == rest;
    if i > 0 {
      EarlierIsPlaced(list, prev, curr, i, i - 1);
      InsertAfterFinds(list, c, curr[i - 1].name);
    }
  }

  lemma {:induction false} PlacePermutes(server: seq<Column>, prev: seq<Column>, curr: seq<Column>, i: nat,
                                         list: seq<Column>)
    requires AreColumns(prev) && AreColumns(curr) && IsPrepared(server, prev, curr) && i <= |curr|
    requires multiset(list) + multiset(Definitions(ChangedFrom(prev, curr, i))) == multiset(Definitions(curr))
    ensures PlaceColumns(server, list, ColumnSpecs(prev, curr, i)).Some?
    ensures multiset(PlaceColumns(server, list, ColumnSpecs(prev, curr, i)).value) == multiset(Definitions(curr))
    decreases |curr| - i
  {
    if i < |curr| {
      if IsKept(prev, curr[i]) {
        KeptHasNoSpec(prev, curr, i);
        PlacePermutes(server, prev, curr, i + 1, list);
      } else {
        SpecPlaces(server, prev, curr, i);
        PlaceOne(list, prev, curr, i);
        PlacePermutes(server, prev, curr, i + 1, Insert(list, Definition(curr[i]), PlaceAt(curr, i)).value);
      }
    }
  }

  // ---- the order is kept only if it was ----

  /** The columns of a list that have one of the given ids. */
  function WithIds(columns: seq<Column>, ids: set<nat>): seq<Column>
  {
    if columns == [] then []
    else (if columns[0].id in ids then [columns[0]] else []) + WithIds(columns[1..], ids)
  }

  lemma {:induction false} InsertKeepsOthers(columns: seq<Column>, c: Column, name: string, ids: set<nat>)
    requires c.id !in ids && InsertAfter(columns, c, name).Some?
    ensures WithIds(InsertAfter(columns, c, name).value, ids) == WithIds(columns, ids)
    decreases columns
  {
    if columns[0].name == name {
      assert ([columns[0], c] + columns[1..])[1..] == [c] + columns[1..];
      assert ([c] + columns[1..])[1..] == columns[1..];
    } else {
      InsertKeepsOthers(columns[1..], c, name, ids);
      var rest := InsertAfter(columns[1..], c, name).value;
      assert ([columns[0]] + rest)[1..] == rest;
    }
  }

  ghost function KeptIds(prev: seq<Column>, curr: seq<Column>): set<nat>
  {
    set c | c in curr && IsKept(prev, c) :: c.id
  }

  lemma PlacedKeepsOthers(list: seq<Column>, c: Column, curr: seq<Column>, i: nat, ids: set<nat>)
    requires i < |curr| && c.id !in ids && Insert(list, c, PlaceAt(curr, i)).Some?
    ensures WithIds(Insert(list, c, PlaceAt(curr, i)).value, ids) == WithIds(list, ids)
  {
    if i == 0 {
      assert ([c] + list)[1..] == list;
    } else {
      InsertKeepsOthers(list, c, curr[i - 1].name, ids);
    }
  }

  lemma {:induction false} PlaceKeepsOthers(server: seq<Column>, prev: seq<Column>, curr: seq<Column>, i: nat,
                                            list: seq<Column>)
    requires AreColumns(prev) && AreColumns(curr) && IsPrepared(server, prev, curr) && i <= |curr|
    requires PlaceColumns(server, list, ColumnSpecs(prev, curr, i)).Some?
    ensures WithIds(PlaceColumns(server, list, ColumnSpecs(prev, curr, i)).value, KeptIds(prev, curr))
         == WithIds(list, KeptIds(prev, curr))
    decreases |curr| - i
  {
    if i < |curr| {
      if IsKept(prev, curr[i]) {
        KeptHasNoSpec(prev, curr, i);
        PlaceKeepsOthers(server, prev, curr, i + 1, list);
      } else {
        SpecPlaces(server, prev, curr, i);
        var c, ids := Definition(curr[i]), KeptIds(prev, curr);
        assert c.id !in ids;
        var placed := Insert(list, c, PlaceAt(curr, i)).value;
        PlacedKeepsOthers(list, c, curr, i, ids);
        PlaceKeepsOthers(server, prev, curr, i + 1, placed);
      }
    }
  }

  lemma {:induction false} WithIdsOfDefinitions(other: seq<Column>, columns: seq<Column>, ids: set<nat>, i: nat)
    requires i <= |columns|
    requires forall c | c in columns :: c.id in ids <==> IsKept(other, c)
    ensures WithIds(Definitions(columns[i..]), ids) == Definitions(KeptFrom(other, columns, i))
    decreases |columns| - i
  {
    if i < |columns| {
      WithIdsOfDefinitions(other, columns, ids, i + 1);
      assert columns[i..][1..] == columns[i + 1..];
      var defs := Definitions(columns[i + 1..]);
      assert ([Definition(columns[i])] + defs)[1..] == defs;
      var kept := KeptFrom(other, columns, i + 1);
      assert ([columns[i]] + kept)[1..] == kept;
    }
  }

  lemma {:induction false} WithAllIds(columns: seq<Column>, ids: set<nat>)
    requires forall c | c in columns :: c.id in ids
    ensures WithIds(columns, ids) == columns
  {
    if columns != [] {
      assert columns[0] in columns;
      WithAllIds(columns[1..], ids);
    }
  }

  lemma {:induction false} SameDefinitions(a: seq<Column>, b: seq<Column>)
    requires Definitions(a) == Definitions(b)
    requires forall x, y | x in a && y in b && x.id == y.id :: x == y
    ensures a == b
  {
    DefinitionsAt(a);
    DefinitionsAt(b);
    assert |a| == |Definitions(a)| == |Definitions(b)| == |b|;
    forall i | 0 <= i < |a|
      ensures a[i] == b[i]
    {
      assert Definition(a[i]) == Definitions(a)[i] == Definitions(b)[i] == Definition(b[i]);
    }
  }

  // ---- the result ----

  lemma {:induction false} PermutedNames(a: seq<Column>, b: seq<Column>)
    requires multiset(a) == multiset(b) && AreColumns(b)
    ensures NamesDistinct(a)
  {
    forall i, j | 0 <= i < j < |a|
      ensures a[i].name != a[j].name
    {
      if a[i].name == a[j].name {
        assert a[i] in multiset(b) && a[j] in multiset(b);
        var k :| 0 <= k < |b| && b[k] == a[i];
        var m :| 0 <= m < |b| && b[m] == a[j];
        assert k == m;
        assert a == a[..i] + [a[i]] + a[i + 1..j] + [a[j]] + a[j + 1..];
        assert multiset(a)[a[i]] >= 2;
        CountOfDistinct(b, a[i]);
        assert false;
      }
    }
  }

  lemma DefinitionsAreColumns(columns: seq<Column>)
    requires AreColumns(columns)
    ensures AreColumns(Definitions(columns))
  {
    DefinitionsAt(columns);
  }

  /** The main statement's column clauses always succeed and give the new columns in
      some order; they give exactly the new list if and only if the unmodified common
      columns come in the same order in both versions. */
  lemma ColumnReplay(server: seq<Column>, prev: seq<Column>, curr: seq<Column>)
    requires AreColumns(prev) && AreColumns(curr) && IsPrepared(server, prev, curr)
    ensures var r := NewColumns(server, ColumnSpecs(prev, curr, 0), DroppedNames(RemovedColumnsFrom(prev, curr, 0), 0));
            && r.Some?
            && multiset(r.value) == multiset(Definitions(curr))
            && (r.value == Definitions(curr) <==> KeepsOrder(prev, curr))
  {
    var specs, dropped := ColumnSpecs(prev, curr, 0), DroppedNames(RemovedColumnsFrom(prev, curr, 0), 0);
    var base := Definitions(KeptFrom(curr, prev, 0));
    UntouchedAre(server, prev, curr, 0);
    DroppedExist(server, prev, curr);
    KeptSame(prev, curr);
    KeptAndChanged(prev, curr, 0);
    assert curr[0..] == curr;
    PlacePermutes(server, prev, curr, 0, base);
    var r := PlaceColumns(server, base, specs).value;
    DefinitionsAreColumns(curr);
    PermutedNames(r, Definitions(curr));
    ExactIffOrdered(server, prev, curr);
  }

  lemma DroppedExist(server: seq<Column>, prev: seq<Column>, curr: seq<Column>)
    requires AreColumns(prev) && IsPrepared(server, prev, curr)
    ensures forall name | name in DroppedNames(RemovedColumnsFrom(prev, curr, 0), 0) :: ColumnByName(server, name).Some?
  {
    forall name | name in DroppedNames(RemovedColumnsFrom(prev, curr, 0), 0)
      ensures ColumnByName(server, name).Some?
    {
      IsDroppedName(prev, curr, name);
      var k :| 0 <= k < |prev| && prev[k].name == name;
      PreparedByName(server, prev, curr, k);
    }
  }

  lemma ExactIffOrdered(server: seq<Column>, prev: seq<Column>, curr: seq<Column>)
    requires AreColumns(prev) && AreColumns(curr) && IsPrepared(server, prev, curr)
    requires PlaceColumns(server, Definitions(KeptFrom(curr, prev, 0)), ColumnSpecs(prev, curr, 0)).Some?
    ensures PlaceColumns(server, Definitions(KeptFrom(curr, prev, 0)), ColumnSpecs(prev, curr, 0)).value
            == Definitions(curr)
            <==> KeepsOrder(prev, curr)
  {
    var r := PlaceColumns(server, Definitions(KeptFrom(curr, prev, 0)), ColumnSpecs(prev, curr, 0)).value;
    if KeepsOrder(prev, curr) {
      PlaceExactly(server, prev, curr, 0);
      NothingBefore(Definitions(KeptFrom(prev, curr, 0)));
    }
    if r == Definitions(curr) {
      ExactKeepsOrder(server, prev, curr);
    }
  }

  lemma ExactKeepsOrder(server: seq<Column>, prev: seq<Column>, curr: seq<Column>)
    requires AreColumns(prev) && AreColumns(curr) && IsPrepared(server, prev, curr)
    requires PlaceColumns(server, Definitions(KeptFrom(curr, prev, 0)), ColumnSpecs(prev, curr, 0))
             == Some(Definitions(curr))
    ensures KeepsOrder(prev, curr)
  {
    var a, b := KeptFrom(curr, prev, 0), KeptFrom(prev, curr, 0);
    var ids := KeptIds(prev, curr);
    PlaceKeepsOthers(server, prev, curr, 0, Definitions(a));
    KeptIdsAre(prev, curr);
    WithIdsOfDefinitions(prev, curr, ids, 0);
    assert curr[0..] == curr;
    DefinitionsAt(a);
    assert forall c | c in Definitions(a) :: c.id in ids;
    WithAllIds(Definitions(a), ids);
    SameDefinitions(a, b);
  }

  lemma KeptIdsAre(prev: seq<Column>, curr: seq<Column>)
    requires IdsDistinct(prev) && IdsDistinct(curr)
    ensures forall c | c in curr :: c.id in KeptIds(prev, curr) <==> IsKept(prev, c)
    ensures forall c | c in KeptFrom(curr, prev, 0) :: c.id in KeptIds(prev, curr)
    ensures forall x, y | x in KeptFrom(curr, prev, 0) && y in KeptFrom(prev, curr, 0) && x.id == y.id :: x == y
  {
    KeptAre(curr, prev, 0);
    KeptAre(prev, curr, 0);
    assert prev[0..] == prev && curr[0..] == curr;
    forall c | c in KeptFrom(curr, prev, 0)
      ensures c in curr && IsKept(prev, c)
    {
      KeptBothWays(prev, curr, c);
    }
  }
}
