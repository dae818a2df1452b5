/** A table edited step by step and the ALTER statements of the edit: the order of columns comes
    out right exactly when the unmodified ones were not moved past each other.
 */
module EditedColumns {
  import opened QtStrings
  import opened Schema
  import opened TableEntityComparator
  import opened TableStructure
  import opened StructureRuns
  import opened AlterServer
  import opened MySQLTableEditor
  import opened AlterColumns
  import opened AlterIndexes
  import opened AlterKeys
  import opened AlterReplay

  // ---- columns picked by position ----

  ghost predicate AreIn(at: seq<nat>, size: nat)
  {
    forall k | 0 <= k < |at| :: at[k] < size
  }

  function Picked(columns: seq<Column>, at: seq<nat>): seq<Column>
    requires AreIn(at, |columns|)
  {
    if at == [] then []
    else [columns[at[0]]] + Picked(columns, at[1..])
  }

  lemma {:induction false} PickedIffSame(columns: seq<Column>, a: seq<nat>, b: seq<nat>)
    requires IdsDistinct(columns) && AreIn(a, |columns|) && AreIn(b, |columns|)
    ensures Picked(columns, a) == Picked(columns, b) <==> a == b
    decreases a
  {
    if a != [] && b != [] {
      var p, q := Picked(columns, a), Picked(columns, b);
      assert p[0] == columns[a[0]] && p[1..] == Picked(columns, a[1..]);
      assert q[0] == columns[b[0]] && q[1..] == Picked(columns, b[1..]);
      PickedIffSame(columns, a[1..], b[1..]);
      if p == q {
        assert a[0] == b[0];
        assert a == [a[0]] + a[1..] && b == [b[0]] + b[1..];
      }
    }
  }

  ghost predicate IsIncreasing(s: seq<nat>)
  {
    forall i, j | 0 <= i < j < |s| :: s[i] < s[j]
  }

  lemma HasMember(s: seq<nat>)
    requires s != []
    ensures exists k :: k in s
  {
    assert s[0] in s;
  }

  lemma {:induction false} SameWhenIncreasing(a: seq<nat>, b: seq<nat>)
    requires IsIncreasing(a) && IsIncreasing(b) && forall k :: k in a <==> k in b
    ensures a == b
    decreases a
  {
    if a == [] {
      if b != [] {
        HasMember(b);
        assert false;
      }
    } else {
      assert a[0] in a && a[0] in b;
      assert b[0] in b && b[0] in a;
      assert a[0] == b[0];
      forall k
        ensures k in a[1..] <==> k in b[1..]
      {
        RestWithout(a, k);
        RestWithout(b, k);
      }
      SameWhenIncreasing(a[1..], b[1..]);
      assert a == [a[0]] + a[1..] && b == [b[0]] + b[1..];
    }
  }

  lemma RestWithout(s: seq<nat>, k: nat)
    requires s != [] && IsIncreasing(s)
    ensures k in s[1..] <==> k in s && k != s[0]
  {
    assert s == [s[0]] + s[1..];
  }

  lemma IncreasingCons(x: nat, rest: seq<nat>)
    requires IsIncreasing(rest) && forall k | k in rest :: x < k
    ensures IsIncreasing([x] + rest)
  {
    assert forall i | 0 <= i < |rest| :: rest[i] in rest;
  }

  // ---- where the unmodified columns are, and where they come from ----

  /** The positions of the unmodified columns in the old list. */
  function KeptPositions(curr: seq<Column>, prev: seq<Column>, i: nat): seq<nat>
    requires i <= |prev|
    decreases |prev| - i
  {
    if i == |prev| then []
    else (if IsKept(curr, prev[i]) then [i] else []) + KeptPositions(curr, prev, i + 1)
  }

  /** The origins of the unmodified columns in the order of the new list. */
  function KeptOrigins(prev: seq<Column>, curr: seq<Column>, origins: seq<Option<nat>>, i: nat): seq<nat>
    requires i <= |curr| == |origins|
    decreases |curr| - i
  {
    if i == |curr| then []
    else (if IsKept(prev, curr[i]) && origins[i].Some? then [origins[i].value] else [])
         + KeptOrigins(prev, curr, origins, i + 1)
  }

  lemma {:induction false} PositionsAre(curr: seq<Column>, prev: seq<Column>, i: nat)
    requires i <= |prev|
    ensures forall k :: k in KeptPositions(curr, prev, i) <==> i <= k < |prev| && IsKept(curr, prev[k])
    ensures IsIncreasing(KeptPositions(curr, prev, i))
    decreases |prev| - i
  {
    if i < |prev| {
      PositionsAre(curr, prev, i + 1);
      if IsKept(curr, prev[i]) {
        IncreasingCons(i, KeptPositions(curr, prev, i + 1));
      } else {
        NothingBefore(KeptPositions(curr, prev, i + 1));
      }
    }
  }

  lemma {:induction false} PositionsPick(curr: seq<Column>, prev: seq<Column>, i: nat)
    requires i <= |prev|
    ensures AreIn(KeptPositions(curr, prev, i), |prev|)
    ensures KeptFrom(curr, prev, i) == Picked(prev, KeptPositions(curr, prev, i))
    decreases |prev| - i
  {
    if i < |prev| {
      PositionsPick(curr, prev, i + 1);
      var rest := KeptPositions(curr, prev, i + 1);
      if IsKept(curr, prev[i]) {
        assert ([i] + rest)[1..] == rest;
      } else {
        NothingBefore(rest);
      }
    }
  }

  /** Each unmodified column of the new list is equal to the one it originates from. */
  ghost predicate ComeFrom(prev: seq<Column>, curr: seq<Column>, origins: seq<Option<nat>>)
  {
    |curr| == |origins|
    && forall k | 0 <= k < |curr| && IsKept(prev, curr[k]) ::
         origins[k].Some? && origins[k].value < |prev| && prev[origins[k].value] == curr[k]
  }

  /** Column k is unmodified and originates from position j. */
  predicate IsKeptFrom(prev: seq<Column>, curr: seq<Column>, origins: seq<Option<nat>>, k: nat, j: nat)
    requires k < |curr| == |origins|
  {
    IsKept(prev, curr[k]) && origins[k] == Some(j)
  }

  lemma {:induction false} OriginOf(prev: seq<Column>, curr: seq<Column>, origins: seq<Option<nat>>, i: nat, j: nat)
      returns (k: nat)
    requires i <= |curr| == |origins| && j in KeptOrigins(prev, curr, origins, i)
    ensures i <= k < |curr| && IsKeptFrom(prev, curr, origins, k, j)
    decreases |curr| - i
  {
    FirstOrigin(prev, curr, origins, i, j);
    if IsKeptFrom(prev, curr, origins, i, j) {
      k := i;
    } else {
      k := OriginOf(prev, curr, origins, i + 1, j);
    }
  }

  lemma {:induction false} OriginIsListed(prev: seq<Column>, curr: seq<Column>, origins: seq<Option<nat>>,
                                          i: nat, j: nat, k: nat)
    requires i <= k < |curr| == |origins| && IsKeptFrom(prev, curr, origins, k, j)
    ensures j in KeptOrigins(prev, curr, origins, i)
    decreases |curr| - i
  {
    if i == k {
      FirstOrigin(prev, curr, origins, k, j);
    } else {
      OriginIsListed(prev, curr, origins, i + 1, j, k);
      StaysListed(prev, curr, origins, i, j);
    }
  }

  lemma StaysListed(prev: seq<Column>, curr: seq<Column>, origins: seq<Option<nat>>, i: nat, j: nat)
    requires i < |curr| == |origins| && j in KeptOrigins(prev, curr, origins, i + 1)
    ensures j in KeptOrigins(prev, curr, origins, i)
  {
    FirstOrigin(prev, curr, origins, i, j);
  }

  lemma FirstOrigin(prev: seq<Column>, curr: seq<Column>, origins: seq<Option<nat>>, i: nat, j: nat)
    requires i < |curr| == |origins|
    ensures j in KeptOrigins(prev, curr, origins, i)
            <==> IsKeptFrom(prev, curr, origins, i, j) || j in KeptOrigins(prev, curr, origins, i + 1)
  {
    var first := if IsKept(prev, curr[i]) && origins[i].Some? then [origins[i].value] else [];
    assert KeptOrigins(prev, curr, origins, i) == first + KeptOrigins(prev, curr, origins, i + 1);
  }

  lemma {:induction false} OriginsPick(prev: seq<Column>, curr: seq<Column>, origins: seq<Option<nat>>, i: nat)
    requires ComeFrom(prev, curr, origins) && i <= |curr|
    ensures AreIn(KeptOrigins(prev, curr, origins, i), |prev|)
    ensures KeptFrom(prev, curr, i) == Picked(prev, KeptOrigins(prev, curr, origins, i))
    decreases |curr| - i
  {
    if i < |curr| {
      OriginsPick(prev, curr, origins, i + 1);
      var rest := KeptOrigins(prev, curr, origins, i + 1);
      if IsKept(prev, curr[i]) {
        assert ([origins[i].value] + rest)[1..] == rest;
      } else {
        NothingBefore(rest);
      }
    }
  }

  // ---- the order over a run of edits ----

  lemma RunComesFrom(prev: ColumnList, edits: seq<Edit>)
    requires IsNumbered(prev)
    ensures ComeFrom(prev.columns, Run(prev, edits).columns, Origins(|prev.columns|, edits))
  {
    RunFollows(prev, edits);
    var curr, origins := Run(prev, edits).columns, Origins(|prev.columns|, edits);
    forall k | 0 <= k < |curr| && IsKept(prev.columns, curr[k])
      ensures origins[k].Some? && origins[k].value < |prev.columns| && prev.columns[origins[k].value] == curr[k]
    {
      PairedWithOrigin(prev, edits, k);
    }
  }

  /** A column kept in the old list is what one kept in the new list originates from. */
  lemma KeptHasHeir(prev: ColumnList, edits: seq<Edit>, j: nat) returns (k: nat)
    requires IsNumbered(prev) && j < |prev.columns|
    requires IsKept(Run(prev, edits).columns, prev.columns[j])
    ensures var curr, origins := Run(prev, edits).columns, Origins(|prev.columns|, edits);
            k < |origins| == |curr| && IsKeptFrom(prev.columns, curr, origins, k, j)
  {
    var curr := Run(prev, edits).columns;
    RunComesFrom(prev, edits);
    var c := ColumnById(curr, prev.columns[j].id).value;
    k :| 0 <= k < |curr| && curr[k] == c;
    PairedWithOrigin(prev, edits, k);
    FoundById(prev.columns, j);
  }

  /** And the other way round. */
  lemma OriginIsKept(prev: ColumnList, edits: seq<Edit>, j: nat, k: nat)
    requires IsNumbered(prev) && |Origins(|prev.columns|, edits)| == |Run(prev, edits).columns|
    requires k < |Run(prev, edits).columns|
    requires IsKeptFrom(prev.columns, Run(prev, edits).columns, Origins(|prev.columns|, edits), k, j)
    ensures j < |prev.columns| && IsKept(Run(prev, edits).columns, prev.columns[j])
  {
    RunKeepsNumbering(prev, edits);
    RunComesFrom(prev, edits);
    FoundById(Run(prev, edits).columns, k);
  }

  lemma SamePicked(prev: ColumnList, edits: seq<Edit>)
    requires IsNumbered(prev)
    ensures var curr, origins := Run(prev, edits).columns, Origins(|prev.columns|, edits);
            |origins| == |curr|
            && forall j ::
                 j in KeptPositions(curr, prev.columns, 0) <==> j in KeptOrigins(prev.columns, curr, origins, 0)
  {
    var curr, origins := Run(prev, edits).columns, Origins(|prev.columns|, edits);
    RunComesFrom(prev, edits);
    PositionsAre(curr, prev.columns, 0);
    forall j: nat
      ensures j in KeptPositions(curr, prev.columns, 0) <==> j in KeptOrigins(prev.columns, curr, origins, 0)
    {
      if j in KeptOrigins(prev.columns, curr, origins, 0) {
        var k := OriginOf(prev.columns, curr, origins, 0, j);
        OriginIsKept(prev, edits, j, k);
      }
      if j in KeptPositions(curr, prev.columns, 0) {
        var k := KeptHasHeir(prev, edits, j);
        OriginIsListed(prev.columns, curr, origins, 0, j, k);
      }
    }
  }

  /** After any run of edits, the unmodified columns keep their order exactly when their origins
      increase along the new list. */
  lemma OrderKeptIff(prev: ColumnList, edits: seq<Edit>)
    requires IsNumbered(prev)
    ensures |Origins(|prev.columns|, edits)| == |Run(prev, edits).columns|
    ensures KeepsOrder(prev.columns, Run(prev, edits).columns)
       <==> IsIncreasing(KeptOrigins(prev.columns, Run(prev, edits).columns, Origins(|prev.columns|, edits), 0))
  {
    var curr, origins := Run(prev, edits).columns, Origins(|prev.columns|, edits);
    RunComesFrom(prev, edits);
    PositionsAre(curr, prev.columns, 0);
    PositionsPick(curr, prev.columns, 0);
    OriginsPick(prev.columns, curr, origins, 0);
    var a, b := KeptPositions(curr, prev.columns, 0), KeptOrigins(prev.columns, curr, origins, 0);
    PickedIffSame(prev.columns, a, b);
    SamePicked(prev, edits);
    if IsIncreasing(b) {
      SameWhenIncreasing(a, b);
    }
  }

  // ---- without moves ----

  predicate IsMove(e: Edit)
  {
    e.MoveUp? || e.MoveDown?
  }

  ghost predicate OriginsIncrease(origins: seq<Option<nat>>)
  {
    forall k, l | 0 <= k < l < |origins| && origins[k].Some? && origins[l].Some? :: origins[k].value < origins[l].value
  }

  lemma InsertKeepsIncrease(origins: seq<Option<nat>>, i: nat)
    requires OriginsIncrease(origins) && i <= |origins|
    ensures OriginsIncrease(InsertAt(origins, i, None))
  {
    InsertedAt(origins, i, None);
  }

  lemma RemoveKeepsIncrease(origins: seq<Option<nat>>, i: nat)
    requires OriginsIncrease(origins) && i < |origins|
    ensures OriginsIncrease(Without(origins, i))
  {
    WithoutAt(origins, i);
  }

  lemma {:induction false} NoMovesNoChange(size: nat, edits: seq<Edit>)
    requires forall e | e in edits :: !IsMove(e)
    ensures OriginsIncrease(Origins(size, edits))
    decreases edits
  {
    if edits != [] {
      var before, e := edits[..|edits| - 1], edits[|edits| - 1];
      assert e in edits;
      NoMovesNoChange(size, before);
      var origins := Origins(size, before);
      match e {
        case InsertDefault(after, _) => InsertKeepsIncrease(origins, InsertPosition(|origins|, after));
        case RemoveAt(i) => if 0 <= i < |origins| { RemoveKeepsIncrease(origins, i); }
        case _ =>
      }
    }
  }

  lemma {:induction false} KeptIncrease(prev: seq<Column>, curr: seq<Column>, origins: seq<Option<nat>>, i: nat)
    requires ComeFrom(prev, curr, origins) && OriginsIncrease(origins) && i <= |curr|
    ensures IsIncreasing(KeptOrigins(prev, curr, origins, i))
    decreases |curr| - i
  {
    if i < |curr| {
      KeptIncrease(prev, curr, origins, i + 1);
      var rest := KeptOrigins(prev, curr, origins, i + 1);
      if IsKept(prev, curr[i]) {
        forall j | j in rest
          ensures origins[i].value < j
        {
          var k := OriginOf(prev, curr, origins, i + 1, j);
          assert origins[k] == Some(j);
        }
        IncreasingCons(origins[i].value, rest);
      } else {
        NothingBefore(rest);
      }
    }
  }

  lemma UnmovedKeepOrder(prev: ColumnList, edits: seq<Edit>)
    requires IsNumbered(prev) && forall e | e in edits :: !IsMove(e)
    ensures KeepsOrder(prev.columns, Run(prev, edits).columns)
  {
    RunComesFrom(prev, edits);
    NoMovesNoChange(|prev.columns|, edits);
    KeptIncrease(prev.columns, Run(prev, edits).columns, Origins(|prev.columns|, edits), 0);
    OrderKeptIff(prev, edits);
  }

  /** A table edited without moving columns: the statements give exactly the new list of
      columns, whatever was inserted, removed and changed. */
  lemma UnmovedEditReplays(prev: Table, curr: Table, lastId: nat, edits: seq<Edit>)
    requires IsTable(prev) && IsTable(curr) && forall x | x in prev.indexes :: x.columnIds != []
    requires IsNumbered(ColumnList(prev.columns, lastId))
             && curr.columns == Run(ColumnList(prev.columns, lastId), edits).columns
    requires forall e | e in edits :: !IsMove(e)
    requires RemovedNamesStayFree(prev.foreignKeys, curr.foreignKeys)
    ensures var r := ExecuteAll(Publish(prev), EditQueries(prev, curr));
            r.Some? && r.value.columns == Definitions(curr.columns)
  {
    UnmovedKeepOrder(ColumnList(prev.columns, lastId), edits);
    EditReplay(prev, curr);
  }

  /** Two columns of which each is found by its id in the list that has them the other way
      round. */
  lemma FoundInPair(a: Column, b: Column)
    requires a.id != b.id
    ensures ColumnById([a, b], a.id) == Some(a) && ColumnById([a, b], b.id) == Some(b)
    ensures IsKept([a, b], a) && IsKept([a, b], b)
    ensures StatusOfColumn([a, b], a) == ColumnStatus(Some(a), a, false, false)
    ensures StatusOfColumn([a, b], b) == ColumnStatus(Some(b), b, false, false)
  {
    var pair := [a, b];
    assert IdsDistinct(pair);
    ColumnByIdAt(pair, 0);
    ColumnByIdAt(pair, 1);
  }

  lemma PairKeepsNoOrder(a: Column, b: Column)
    requires a.id != b.id
    ensures !KeepsOrder([a, b], [b, a])
  {
    FoundInPair(a, b);
    FoundInPair(b, a);
    assert KeptFrom([b, a], [a, b], 0)[0] == a && KeptFrom([a, b], [b, a], 0)[0] == b;
  }

  /** Nothing is reported for a column that is in both versions unchanged. */
  lemma KeptIsPassed(prev: seq<Column>, curr: seq<Column>, i: nat)
    requires i < |curr| && StatusOfColumn(prev, curr[i]) == ColumnStatus(Some(curr[i]), curr[i], false, false)
    ensures ColumnSpecs(prev, curr, i) == ColumnSpecs(prev, curr, i + 1)
    ensures ModifiedColumnsFrom(prev, curr, i) == ModifiedColumnsFrom(prev, curr, i + 1)
  {
  }

  lemma FoundIsNotRemoved(prev: seq<Column>, curr: seq<Column>, i: nat)
    requires i < |prev| && ColumnById(curr, prev[i].id).Some?
    ensures RemovedColumnsFrom(prev, curr, i) == RemovedColumnsFrom(prev, curr, i + 1)
  {
  }

  /** For example, a column that only moved past another one is not noticed, and nothing at all
      is sent for it. */
  lemma MovedIsMissed(a: Column, b: Column)
    requires a.id != b.id
    ensures Apply(ColumnList([a, b], 0), MoveDown(0)).columns == [b, a] && !KeepsOrder([a, b], [b, a])
    ensures EditQueries(Table([a, b], [], []), Table([b, a], [], [])) == []
  {
    var prev, curr := [a, b], [b, a];
    PairKeepsNoOrder(a, b);
    FoundInPair(a, b);
    FoundInPair(b, a);
    KeptIsPassed(prev, curr, 0);
    KeptIsPassed(prev, curr, 1);
    FoundIsNotRemoved(prev, curr, 0);
    FoundIsNotRemoved(prev, curr, 1);
    assert ColumnSpecs(prev, curr, 2) == [] && ModifiedColumnsFrom(prev, curr, 2) == [];
    assert RemovedColumnsFrom(prev, curr, 2) == [];
  }
}
