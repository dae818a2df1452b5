/** Grid and database stay in step over every run of edits. */
module GridRuns {
  import opened QtStrings
  import opened ResultPages
  import opened GridSpec

  /** Each grid row is the table row of its key, each table row is in the grid, and no two
      grid rows have one key. */
  ghost predicate InStep(setup: Setup, s: State)
  {
    && IsState(setup, s)
    && (forall k | k in s.table :: KeyOf(setup, s.table[k]) == k && None !in k)
    && (forall i | 0 <= i < |s.rows| :: IsStored(setup, s, i))
    && (forall k | k in s.table :: HasKey(setup, s, k))
    && (forall i, j | 0 <= i < j < |s.rows| :: KeyOf(setup, s.rows[i]) != KeyOf(setup, s.rows[j]))
  }

  ghost predicate IsStored(setup: Setup, s: State, i: nat)
    requires IsState(setup, s) && i < |s.rows|
  {
    KeyOf(setup, s.rows[i]) in s.table && s.table[KeyOf(setup, s.rows[i])] == s.rows[i]
  }

  ghost predicate HasKey(setup: Setup, s: State, k: Key)
    requires IsState(setup, s)
  {
    exists i | 0 <= i < |s.rows| :: KeyOf(setup, s.rows[i]) == k
  }

  // ---- writing only what changed writes the row ----

  lemma {:induction false} AssignFrom(row: Row, before: Row, after: Row, i: nat)
    requires i <= |before| == |after| == |row|
    requires (forall k | 0 <= k < i :: row[k] == after[k]) && forall k | i <= k < |row| :: row[k] == before[k]
    ensures Assign(row, Changes(before, after, i)) == after
    decreases |before| - i
  {
    if i < |before| {
      var changes := Changes(before, after, i);
      if before[i] == after[i] {
        assert changes == Changes(before, after, i + 1);
        AssignFrom(row, before, after, i + 1);
      } else {
        assert changes[0] == Change(i, after[i]) && changes[1..] == Changes(before, after, i + 1);
        AssignFrom(row[i := after[i]], before, after, i + 1);
      }
    }
  }

  /** What is written is exactly the columns that differ, in order and each once. */
  lemma {:induction false} ChangesIff(before: Row, after: Row, i: nat, k: nat, value: Cell)
    requires i <= |before| == |after|
    ensures Change(k, value) in Changes(before, after, i)
       <==> i <= k < |after| && before[k] != after[k] && value == after[k]
    ensures var changes := Changes(before, after, i);
            forall a, b | 0 <= a < b < |changes| :: i <= changes[a].column < changes[b].column
    decreases |before| - i
  {
    if i < |before| {
      ChangesIff(before, after, i + 1, k, value);
      forall x | x in Changes(before, after, i + 1)
        ensures i < x.column
      {
        ChangesIff(before, after, i + 1, x.column, x.value);
      }
    }
  }

  lemma {:induction false} NoChanges(before: Row, after: Row, i: nat)
    requires i <= |before| == |after|
    ensures Changes(before, after, i) == [] <==> before[i..] == after[i..]
    decreases |before| - i
  {
    if i < |before| {
      NoChanges(before, after, i + 1);
      assert before[i..] == [before[i]] + before[i + 1..] && after[i..] == [after[i]] + after[i + 1..];
    }
  }

  /** An UPDATE that succeeds puts the pending data in the place of the row it was made from,
      and leaves every other row of the table alone. */
  lemma UpdateWritesRow(setup: Setup, s: State, accepted: bool)
    requires InStep(setup, s) && s.pending.Some?
    ensures var p := s.pending.value;
            var before := KeyOf(setup, s.rows[p.rowNumber]);
            var table := Update(setup, s.table, before, Changes(s.rows[p.rowNumber], p.data, 0), accepted);
            var after := KeyOf(setup, p.data);
            && (table.Some? <==> accepted && (after == before || after !in s.table) && None !in after)
            && (table.Some? ==> table.value == (s.table - {before})[after := p.data])
  {
    var p := s.pending.value;
    var row := s.rows[p.rowNumber];
    assert IsStored(setup, s, p.rowNumber);
    AssignFrom(row, row, p.data, 0);
  }

  // ---- steps keep the grid in step ----

  lemma SetDataKeepsStep(setup: Setup, s: State, row: nat, col: nat, value: Cell)
    requires InStep(setup, s) && row < |s.rows|
    ensures InStep(setup, AfterSetData(s, row, col, value))
  {
    SamePlaces(setup, s, AfterSetData(s, row, col, value));
  }

  /** What is pending does not matter for being in step. */
  lemma SamePlaces(setup: Setup, s: State, t: State)
    requires InStep(setup, s) && IsState(setup, t) && t.rows == s.rows && t.table == s.table
    ensures InStep(setup, t)
  {
    forall i | 0 <= i < |t.rows|
      ensures IsStored(setup, t, i)
    {
      assert IsStored(setup, s, i);
    }
    forall k | k in t.table
      ensures HasKey(setup, t, k)
    {
      assert HasKey(setup, s, k);
    }
  }

  lemma ApplyKeepsStep(setup: Setup, s: State, accepted: bool)
    requires InStep(setup, s)
    ensures InStep(setup, AfterApply(setup, s, accepted).0)
  {
    var r := AfterApply(setup, s, accepted);
    if r.1.Done? {
      UpdateWritesRow(setup, s, accepted);
      ReplacedInStep(setup, s, s.pending.value.rowNumber, s.pending.value.data);
    }
  }

  lemma ReplacedInStep(setup: Setup, s: State, n: nat, data: Row)
    requires InStep(setup, s) && n < |s.rows| && IsRow(setup, data)
    requires var before, after := KeyOf(setup, s.rows[n]), KeyOf(setup, data);
             (after == before || after !in s.table) && None !in after
    ensures var table := (s.table - {KeyOf(setup, s.rows[n])})[KeyOf(setup, data) := data];
            InStep(setup, State(s.rows[n := data], None, table))
  {
    var before, after := KeyOf(setup, s.rows[n]), KeyOf(setup, data);
    var t := State(s.rows[n := data], None, (s.table - {before})[after := data]);
    forall i | 0 <= i < |t.rows|
      ensures IsStored(setup, t, i)
    {
      assert IsStored(setup, s, i);
    }
    forall k | k in t.table
      ensures HasKey(setup, t, k)
    {
      if k == after {
        assert KeyOf(setup, t.rows[n]) == k;
      } else {
        assert HasKey(setup, s, k);
        var i :| 0 <= i < |s.rows| && KeyOf(setup, s.rows[i]) == k;
        assert KeyOf(setup, t.rows[i]) == k;
      }
    }
    forall i, j | 0 <= i < j < |t.rows|
      ensures KeyOf(setup, t.rows[i]) != KeyOf(setup, t.rows[j])
    {
      assert IsStored(setup, s, i) && IsStored(setup, s, j);
    }
  }

  /** An accepted DELETE keeps the grid in step exactly when no other row is pending:
      otherwise the table loses the pending row, and the grid the other one. */
  lemma DeleteKeepsStepIff(setup: Setup, s: State, row: nat)
    requires InStep(setup, s) && row < |s.rows|
    ensures InStep(setup, AfterDelete(setup, s, row, true).0) <==> s.pending.None? || s.pending.value.rowNumber == row
  {
    var t := AfterDelete(setup, s, row, true).0;
    var gone := Addressed(s, row);
    if gone == row {
      DeletedInStep(setup, s, row);
    } else {
      var at := if gone < row then gone else gone - 1;
      assert t.rows[at] == s.rows[gone];
      assert !IsStored(setup, t, at);
    }
  }

  lemma DeletedInStep(setup: Setup, s: State, n: nat)
    requires InStep(setup, s) && n < |s.rows|
    ensures InStep(setup, State(Without(s.rows, n), None, s.table - {KeyOf(setup, s.rows[n])}))
  {
    var t := State(Without(s.rows, n), None, s.table - {KeyOf(setup, s.rows[n])});
    assert forall i | 0 <= i < |t.rows| :: t.rows[i] == s.rows[if i < n then i else i + 1];
    forall i | 0 <= i < |t.rows|
      ensures IsStored(setup, t, i)
    {
      assert IsStored(setup, s, if i < n then i else i + 1);
    }
    forall k | k in t.table
      ensures HasKey(setup, t, k)
    {
      assert HasKey(setup, s, k);
      var i :| 0 <= i < |s.rows| && KeyOf(setup, s.rows[i]) == k;
      assert t.rows[if i < n then i else i - 1] == s.rows[i];
    }
  }

  // ---- runs ----

  datatype Step =
    | SetData(row: nat, col: nat, value: Cell)
    | Apply(accepted: bool)
    | Discard
    | Delete(row: nat, accepted: bool)

  ghost function Next(setup: Setup, s: State, step: Step): State
    requires IsState(setup, s)
  {
    match step
    case SetData(row, col, value) => if row < |s.rows| then AfterSetData(s, row, col, value) else s
    case Apply(accepted) => AfterApply(setup, s, accepted).0
    case Discard => s.(pending := None)
    case Delete(row, accepted) => if row < |s.rows| then AfterDelete(setup, s, row, accepted).0 else s
  }

  lemma NextIsState(setup: Setup, s: State, step: Step)
    requires IsState(setup, s)
    ensures IsState(setup, Next(setup, s, step))
  {
    match step {
      case Apply(accepted) => ApplyIsState(setup, s, accepted);
      case Delete(row, _) =>
        if row < |s.rows| {
          assert forall i | 0 <= i < |s.rows| - 1 :: Without(s.rows, row)[i] == s.rows[if i < row then i else i + 1];
        }
      case _ =>
    }
  }

  lemma ApplyIsState(setup: Setup, s: State, accepted: bool)
    requires IsState(setup, s)
    ensures IsState(setup, AfterApply(setup, s, accepted).0)
  {
  }

  /** A row that is deleted is the one that is pending, if there is one. */
  predicate IsCareful(s: State, step: Step)
  {
    step.Delete? && step.accepted && step.row < |s.rows| && s.pending.Some? ==> s.pending.value.rowNumber == step.row
  }

  ghost predicate IsCarefulRun(setup: Setup, s: State, steps: seq<Step>)
    requires IsState(setup, s)
    decreases steps
  {
    steps == []
    || (IsCareful(s, steps[0])
        && (NextIsState(setup, s, steps[0]); IsCarefulRun(setup, Next(setup, s, steps[0]), steps[1..])))
  }

  ghost function Run(setup: Setup, s: State, steps: seq<Step>): State
    requires IsState(setup, s)
    decreases steps
  {
    if steps == [] then s
    else
      NextIsState(setup, s, steps[0]);
      Run(setup, Next(setup, s, steps[0]), steps[1..])
  }

  lemma StepKeepsStepIff(setup: Setup, s: State, step: Step)
    requires InStep(setup, s)
    ensures InStep(setup, Next(setup, s, step)) <==> IsCareful(s, step)
  {
    match step {
      case SetData(row, col, value) => if row < |s.rows| { SetDataKeepsStep(setup, s, row, col, value); }
      case Apply(accepted) => ApplyKeepsStep(setup, s, accepted);
      case Discard => SamePlaces(setup, s, s.(pending := None));
      case Delete(row, accepted) => if row < |s.rows| && accepted { DeleteKeepsStepIff(setup, s, row); }
    }
  }

  /** At every moment of a run. */
  ghost predicate AlwaysInStep(setup: Setup, s: State, steps: seq<Step>)
    requires IsState(setup, s)
    decreases steps
  {
    && InStep(setup, s)
    && (steps == [] || (NextIsState(setup, s, steps[0]); AlwaysInStep(setup, Next(setup, s, steps[0]), steps[1..])))
  }

  /** Over every run of edits, whatever the server accepts or refuses, the grid is in step with
      the table at every moment if and only if each row that was deleted was the pending one or
      none was pending. */
  lemma {:induction false} RunKeepsStepIff(setup: Setup, s: State, steps: seq<Step>)
    requires InStep(setup, s)
    ensures AlwaysInStep(setup, s, steps) <==> IsCarefulRun(setup, s, steps)
    decreases steps
  {
    if steps != [] {
      StepKeepsStepIff(setup, s, steps[0]);
      NextIsState(setup, s, steps[0]);
      if IsCareful(s, steps[0]) {
        RunKeepsStepIff(setup, Next(setup, s, steps[0]), steps[1..]);
      }
    }
  }

  /** And so it is at the end. */
  lemma {:induction false} RunKeepsStep(setup: Setup, s: State, steps: seq<Step>)
    requires InStep(setup, s) && IsCarefulRun(setup, s, steps)
    ensures InStep(setup, Run(setup, s, steps))
    decreases steps
  {
    if steps != [] {
      StepKeepsStepIff(setup, s, steps[0]);
      NextIsState(setup, s, steps[0]);
      RunKeepsStep(setup, Next(setup, s, steps[0]), steps[1..]);
    }
  }

  /** What an accepted apply leaves: the user's data in the grid and under its key in the
      table, all other rows as they were, and nothing pending. */
  lemma ApplyWritesWhatIsShown(setup: Setup, s: State, accepted: bool)
    requires InStep(setup, s) && AfterApply(setup, s, accepted).1.Done?
    ensures var n := AfterApply(setup, s, accepted).1.row;
            var t := AfterApply(setup, s, accepted).0;
            && n < |s.rows| && t.rows == s.rows[n := Shown(s, n)] && t.pending.None?
            && t.table == (s.table - {KeyOf(setup, s.rows[n])})[KeyOf(setup, Shown(s, n)) := Shown(s, n)]
  {
    UpdateWritesRow(setup, s, accepted);
  }

  /** Nothing is sent, and nothing given up, when every edit was taken back by hand. */
  lemma UnchangedStaysPending(setup: Setup, s: State, accepted: bool)
    requires IsState(setup, s) && s.pending.Some?
    ensures AfterApply(setup, s, accepted) == (s, Nothing)
            <==> s.pending.value.data == s.rows[s.pending.value.rowNumber]
  {
    var p := s.pending.value;
    NoChanges(s.rows[p.rowNumber], p.data, 0);
    assert s.rows[p.rowNumber][0..] == s.rows[p.rowNumber] && p.data[0..] == p.data;
  }

  // ---- what the user sees is what was typed, until edits are given up ----

  /** Editing a cell keeps the pending row pending exactly when it is in that row, or changes
      nothing. */
  lemma EditKeepsPendingIff(s: State, row: nat, col: nat, value: Cell)
    requires s.pending.Some? && s.pending.value.rowNumber < |s.rows| && row < |s.rows|
    ensures var n, t := s.pending.value.rowNumber, AfterSetData(s, row, col, value);
            t.pending.Some? && (t.pending.value.rowNumber == n
              <==> row == n || col >= |s.rows[row]| || s.rows[row][col] == value)
  {
  }

  /** The grid as the user sees it. */
  function Visible(s: State): (v: seq<Row>)
    ensures |v| == |s.rows|
  {
    seq(|s.rows|, i requires 0 <= i < |s.rows| => Shown(s, i))
  }

  /** What the user means a step to do to the visible grid. */
  function Meant(v: seq<Row>, step: Step): seq<Row>
  {
    match step
    case SetData(row, col, value) => if row < |v| && col < |v[row]| then v[row := v[row][col := value]] else v
    case Apply(_) => v
    case Discard => v
    case Delete(row, accepted) => if accepted && row < |v| then Without(v, row) else v
  }

  /** Edits are pending that the row does not hold yet. */
  predicate HasEdits(s: State)
  {
    s.pending.Some? && s.pending.value.rowNumber < |s.rows| && s.pending.value.data != s.rows[s.pending.value.rowNumber]
  }

  /** After an update the table holds other data under the key of the edited row, and those are
      read back. */
  ghost predicate ReadsBackOther(setup: Setup, s: State, accepted: bool)
    requires IsState(setup, s)
  {
    HasEdits(s) && setup.reload
    && var p := s.pending.value;
       var key := KeyOf(setup, p.data);
       var before := s.rows[p.rowNumber];
       var table := Update(setup, s.table, KeyOf(setup, before), Changes(before, p.data, 0), accepted);
       table.Some? && key in table.value && |table.value[key]| == |p.data| && table.value[key] != p.data
  }

  /** The step discards edits, deletes or changes another row than the edited one, or reads back
      something else. */
  ghost predicate GivesUp(setup: Setup, s: State, step: Step)
    requires IsState(setup, s)
  {
    HasEdits(s)
    && match step
       case SetData(row, col, value) =>
         row < |s.rows| && row != s.pending.value.rowNumber && col < |s.rows[row]| && s.rows[row][col] != value
       case Apply(accepted) => ReadsBackOther(setup, s, accepted)
       case Discard => true
       case Delete(row, accepted) => accepted && row < |s.rows| && row != s.pending.value.rowNumber
  }

  lemma SetDataShows(setup: Setup, s: State, row: nat, col: nat, value: Cell)
    requires IsState(setup, s) && row < |s.rows|
    ensures Visible(AfterSetData(s, row, col, value)) == Meant(Visible(s), SetData(row, col, value))
       <==> !GivesUp(setup, s, SetData(row, col, value))
  {
    var t, v := AfterSetData(s, row, col, value), Visible(s);
    var meant := Meant(v, SetData(row, col, value));
    assert col < |v[row]| ==> meant[row] == v[row][col := value];
    if GivesUp(setup, s, SetData(row, col, value)) {
      var n := s.pending.value.rowNumber;
      assert Visible(t)[n] == s.rows[n] && meant[n] == v[n] == s.pending.value.data;
    } else {
      assert col < |v[row]| && v[row][col] == value ==> v[row][col := value] == v[row];
      assert forall i | 0 <= i < |v| :: Visible(t)[i] == meant[i];
    }
  }

  lemma ApplyShows(setup: Setup, s: State, accepted: bool)
    requires IsState(setup, s)
    ensures Visible(AfterApply(setup, s, accepted).0) == Visible(s) <==> !GivesUp(setup, s, Apply(accepted))
  {
    if s.pending.Some? {
      var p := s.pending.value;
      NoChanges(s.rows[p.rowNumber], p.data, 0);
      assert s.rows[p.rowNumber][0..] == s.rows[p.rowNumber] && p.data[0..] == p.data;
      var t := AfterApply(setup, s, accepted).0;
      assert Visible(t)[p.rowNumber] == if t.pending.Some? then p.data else t.rows[p.rowNumber];
    }
  }

  /** In step with the table, only what was written is read back. */
  lemma InStepReadsBack(setup: Setup, s: State, accepted: bool)
    requires InStep(setup, s)
    ensures !GivesUp(setup, s, Apply(accepted))
  {
    if AfterApply(setup, s, accepted).1.Done? {
      UpdateWritesRow(setup, s, accepted);
    }
    ApplyShows(setup, s, accepted);
  }

  lemma DiscardShows(s: State)
    requires s.pending.Some? ==> s.pending.value.rowNumber < |s.rows|
    ensures Visible(s.(pending := None)) == Visible(s) <==> !HasEdits(s)
  {
    if HasEdits(s) {
      var n := s.pending.value.rowNumber;
      assert Visible(s)[n] == s.pending.value.data && Visible(s.(pending := None))[n] == s.rows[n];
    }
  }

  lemma DeleteShows(setup: Setup, s: State, row: nat)
    requires IsState(setup, s) && row < |s.rows|
    ensures Visible(AfterDelete(setup, s, row, true).0) == Without(Visible(s), row)
            <==> !GivesUp(setup, s, Delete(row, true))
  {
    var t := AfterDelete(setup, s, row, true).0;
    forall i | 0 <= i < |t.rows|
      ensures Visible(t)[i] == s.rows[if i < row then i else i + 1]
      ensures Without(Visible(s), row)[i] == Shown(s, if i < row then i else i + 1)
    {
    }
    if GivesUp(setup, s, Delete(row, true)) {
      var n := s.pending.value.rowNumber;
      var at := if n < row then n else n - 1;
      assert Visible(t)[at] == s.rows[n] && Without(Visible(s), row)[at] == s.pending.value.data;
    }
  }

  /** A step shows what it is meant to show exactly when it does not give up edits. */
  lemma StepShowsIff(setup: Setup, s: State, step: Step)
    requires IsState(setup, s)
    ensures Visible(Next(setup, s, step)) == Meant(Visible(s), step) <==> !GivesUp(setup, s, step)
  {
    match step {
      case SetData(row, col, value) => if row < |s.rows| { SetDataShows(setup, s, row, col, value); }
      case Apply(accepted) => ApplyShows(setup, s, accepted);
      case Discard => DiscardShows(s);
      case Delete(row, accepted) => if accepted && row < |s.rows| { DeleteShows(setup, s, row); }
    }
  }

  /** At every moment of a run, from a state that should show v. */
  ghost predicate ShowsWhatWasMeant(setup: Setup, s: State, v: seq<Row>, steps: seq<Step>)
    requires IsState(setup, s)
    decreases steps
  {
    Visible(s) == v
    && (steps == []
        || (NextIsState(setup, s, steps[0]); ShowsWhatWasMeant(setup, Next(setup, s, steps[0]), Meant(v, steps[0]),
           steps[1..])))
  }

  ghost predicate NeverGivesUp(setup: Setup, s: State, steps: seq<Step>)
    requires IsState(setup, s)
    decreases steps
  {
    steps == []
    || (!GivesUp(setup, s, steps[0])
        && (NextIsState(setup, s, steps[0]); NeverGivesUp(setup, Next(setup, s, steps[0]), steps[1..])))
  }

  lemma NotShown(setup: Setup, s: State, steps: seq<Step>)
    requires IsState(setup, s) && steps != [] && GivesUp(setup, s, steps[0])
    ensures !ShowsWhatWasMeant(setup, s, Visible(s), steps)
  {
    StepShowsIff(setup, s, steps[0]);
    NextIsState(setup, s, steps[0]);
    var t, v := Next(setup, s, steps[0]), Meant(Visible(s), steps[0]);
    assert ShowsWhatWasMeant(setup, t, v, steps[1..]) ==> Visible(t) == v;
  }

  /** Over every run, the user sees at every moment what was typed, whatever was applied or
      refused in between, if and only if no step gives up edits. */
  lemma {:induction false} RunShowsIff(setup: Setup, s: State, steps: seq<Step>)
    requires IsState(setup, s)
    ensures ShowsWhatWasMeant(setup, s, Visible(s), steps) <==> NeverGivesUp(setup, s, steps)
    decreases steps
  {
    if steps != [] {
      StepShowsIff(setup, s, steps[0]);
      NextIsState(setup, s, steps[0]);
      if GivesUp(setup, s, steps[0]) {
        NotShown(setup, s, steps);
      } else {
        RunShowsIff(setup, Next(setup, s, steps[0]), steps[1..]);
      }
    }
  }

  // ---- an example: rows "a" and "b" of one column, "x" typed over "a" ----

  const ONE_COLUMN := Setup(1, [0], false)

  const TYPED_OVER := State([[Some("a")], [Some("b")]], Some(Pending([Some("x")], 0)),
                            map[[Some("a")] := [Some("a")], [Some("b")] := [Some("b")]])

  lemma KeyOfOneColumn(row: Row)
    requires IsRow(ONE_COLUMN, row)
    ensures KeyOf(ONE_COLUMN, row) == row
  {
    assert KeyFrom(ONE_COLUMN, row, 1) == [];
  }

  lemma ExampleIsInStep()
    ensures InStep(ONE_COLUMN, TYPED_OVER)
  {
    var s := TYPED_OVER;
    KeyOfOneColumn(s.rows[0]);
    KeyOfOneColumn(s.rows[1]);
    assert "a"[0] != "b"[0];
    assert IsStored(ONE_COLUMN, s, 0) && IsStored(ONE_COLUMN, s, 1);
    forall k | k in s.table
      ensures HasKey(ONE_COLUMN, s, k)
    {
      assert KeyOf(ONE_COLUMN, s.rows[0]) == k || KeyOf(ONE_COLUMN, s.rows[1]) == k;
    }
  }

  /** Once "b" is edited, the "x" is gone. */
  lemma GivenUpExample()
    ensures Visible(TYPED_OVER) == [[Some("x")], [Some("b")]]
    ensures Visible(AfterSetData(TYPED_OVER, 1, 0, Some("y"))) == [[Some("a")], [Some("y")]]
  {
    assert "b"[0] != "y"[0];
    assert [Some("b")][0 := Some("y")] == [Some("y")];
  }

  /** Deleting "b" deletes "a" in the table. */
  lemma DeletedOtherExample()
    ensures IsState(ONE_COLUMN, TYPED_OVER)
    ensures var t := AfterDelete(ONE_COLUMN, TYPED_OVER, 1, true).0;
            t.rows == [[Some("a")]] && [Some("a")] !in t.table && !InStep(ONE_COLUMN, t)
  {
    ExampleIsInStep();
    KeyOfOneColumn(TYPED_OVER.rows[0]);
    DeleteKeepsStepIff(ONE_COLUMN, TYPED_OVER, 1);
  }
}
