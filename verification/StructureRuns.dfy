/** Column ids over any run of edits on a copied structure: they stay distinct, an id is
    never handed out twice, and pairing two versions by id pairs each column with the
    original it was copied from.
 */
module StructureRuns {
  import opened QtStrings
  import opened Schema
  import opened TableStructure

  /** Ids are distinct and at most the counter. */
  ghost predicate IsNumbered(s: ColumnList)
  {
    && (forall i | 0 <= i < |s.columns| :: s.columns[i].id <= s.lastId)
    && (forall i, j | 0 <= i < j < |s.columns| :: s.columns[i].id != s.columns[j].id)
  }

  lemma InsertedAt<T>(s: seq<T>, i: nat, x: T)
    requires i <= |s|
    ensures |InsertAt(s, i, x)| == |s| + 1
    ensures forall k | 0 <= k <= |s| :: InsertAt(s, i, x)[k] == if k < i then s[k] else if k == i then x else s[k - 1]
  {
  }

  lemma WithoutAt<T>(s: seq<T>, i: nat)
    requires i < |s|
    ensures |Without(s, i)| == |s| - 1
    ensures forall k | 0 <= k < |s| - 1 :: Without(s, i)[k] == s[if k < i then k else k + 1]
  {
  }

  lemma InsertKeepsNumbering(s: ColumnList, i: nat, c: Column)
    requires IsNumbered(s) && i <= |s.columns| && c.id == s.lastId + 1
    ensures IsNumbered(ColumnList(InsertAt(s.columns, i, c), s.lastId + 1))
  {
    InsertedAt(s.columns, i, c);
  }

  lemma RemoveKeepsNumbering(s: ColumnList, i: nat)
    requires IsNumbered(s) && i < |s.columns|
    ensures IsNumbered(s.(columns := Without(s.columns, i)))
  {
    WithoutAt(s.columns, i);
  }

  lemma SwapKeepsNumbering(s: ColumnList, i: nat)
    requires IsNumbered(s) && 1 <= i < |s.columns|
    ensures IsNumbered(s.(columns := Swapped(s.columns, i)))
  {
  }

  lemma AppendKeepsNumbering(s: ColumnList, c: Column)
    requires IsNumbered(s) && c.id == s.lastId + 1
    ensures IsNumbered(ColumnList(s.columns + [c], s.lastId + 1))
  {
  }

  lemma ChangeKeepsNumbering(s: ColumnList, i: nat, c: Column)
    requires IsNumbered(s) && i < |s.columns| && c.id == s.columns[i].id
    ensures IsNumbered(s.(columns := s.columns[i := c]))
  {
  }

  lemma NewColumnKeepsNumbering(s: ColumnList, e: Edit)
    requires IsNumbered(s) && (e.InsertDefault? || e.Append?)
    ensures IsNumbered(Apply(s, e)) && s.lastId <= Apply(s, e).lastId
  {
    match e {
      case InsertDefault(after, dataType) =>
        InsertKeepsNumbering(s, InsertPosition(|s.columns|, after),
          DefaultColumn(s.columns, after, dataType, s.lastId + 1));
      case Append(c) => AppendKeepsNumbering(s, c.(id := s.lastId + 1));
    }
  }

  lemma StepKeepsNumbering(s: ColumnList, e: Edit)
    requires IsNumbered(s)
    ensures IsNumbered(Apply(s, e)) && s.lastId <= Apply(s, e).lastId
  {
    match e {
      case RemoveAt(i) => if 0 <= i < |s.columns| { RemoveKeepsNumbering(s, i); }
      case MoveUp(i) => if 1 <= i < |s.columns| { SwapKeepsNumbering(s, i); }
      case MoveDown(i) => if 0 <= i < |s.columns| - 1 { SwapKeepsNumbering(s, i + 1); }
      case Change(i, c) => if i < |s.columns| { ChangeKeepsNumbering(s, i, c.(id := s.columns[i].id)); }
      case _ => NewColumnKeepsNumbering(s, e);
    }
  }

  lemma {:induction false} RunKeepsNumbering(s: ColumnList, edits: seq<Edit>)
    requires IsNumbered(s)
    ensures IsNumbered(Run(s, edits)) && s.lastId <= Run(s, edits).lastId
    decreases |edits|
  {
    if edits != [] {
      RunKeepsNumbering(s, edits[..|edits| - 1]);
      StepKeepsNumbering(Run(s, edits[..|edits| - 1]), edits[|edits| - 1]);
    }
  }

  ghost predicate HasId(s: ColumnList, id: nat)
  {
    exists k | 0 <= k < |s.columns| :: s.columns[k].id == id
  }

  lemma StepReusesNoId(s: ColumnList, e: Edit, id: nat)
    requires id <= s.lastId && !HasId(s, id)
    ensures !HasId(Apply(s, e), id) && id <= Apply(s, e).lastId
  {
    match e {
      case InsertDefault(after, dataType) =>
        var c := DefaultColumn(s.columns, after, dataType, s.lastId + 1);
        InsertedAt(s.columns, InsertPosition(|s.columns|, after), c);
      case _ =>
    }
  }

  /** An id that was handed out and is gone never comes back, whatever is done next. */
  lemma {:induction false} GoneIdsStayGone(s: ColumnList, edits: seq<Edit>, id: nat)
    requires id <= s.lastId && !HasId(s, id)
    ensures !HasId(Run(s, edits), id) && id <= Run(s, edits).lastId
    decreases |edits|
  {
    if edits != [] {
      GoneIdsStayGone(s, edits[..|edits| - 1], id);
      StepReusesNoId(Run(s, edits[..|edits| - 1]), edits[|edits| - 1], id);
    }
  }

  // ---- what an insertion adds, and what undoes an edit ----

  /** c has the data of the other column, but is not AUTO_INCREMENT. */
  ghost predicate IsCopyOf(c: Column, parent: Column)
  {
    && c.defaultType != AutoInc
    && c == parent.(id := c.id, name := c.name, defaultType := c.defaultType, defaultText := c.defaultText)
    && (parent.defaultType == AutoInc ==> c.defaultType == TextDefault && c.defaultText == "0")
    && (parent.defaultType != AutoInc ==> c == parent.(id := c.id, name := c.name))
  }

  ghost predicate IsEmptyColumn(c: Column, dataType: DataType)
  {
    && c.dataType == dataType && c.allowNull && !c.isUnsigned && !c.zeroFill && c.defaultType == NoDefault
    && c.lengthSet == c.defaultText == c.comment == c.charset == c.collation == []
  }

  /** The value of a numeral. */
  function Value(digits: string): int
  {
    if digits == [] then 0
    else 10 * Value(digits[..|digits| - 1]) + (digits[|digits| - 1] as int - '0' as int)
  }

  /** The numeral of n without zeros in front. */
  predicate IsNumeral(digits: string, n: nat)
  {
    && (forall c | c in digits :: '0' <= c <= '9')
    && digits != [] && (|digits| > 1 ==> digits[0] != '0')
    && Value(digits) == n
  }

  lemma {:induction false} DigitsAreNumeral(n: nat)
    ensures IsNumeral(DigitString(n), n) && (n > 0 ==> DigitString(n)[0] != '0')
  {
    if n < 10 {
      assert Value([]) == 0;
    } else {
      DigitsAreNumeral(n / 10);
      assert DigitString(n)[..|DigitString(n)| - 1] == DigitString(n / 10);
    }
  }

  /** A name that says at which place the column is, counted from 1. */
  predicate IsNameAt(name: string, position: nat)
  {
    |name| > 7 && name[..7] == "column_" && IsNumeral(name[7..], position + 1)
  }

  lemma NameIsAt(position: nat)
    ensures IsNameAt("column_" + DigitString(position + 1), position)
  {
    var digits := DigitString(position + 1);
    DigitsAreNumeral(position + 1);
    assert ("column_" + digits)[..7] == "column_" && ("column_" + digits)[7..] == digits;
  }

  lemma InsertedIs(columns: seq<Column>, after: int, dataType: DataType, id: nat)
    ensures var c := DefaultColumn(columns, after, dataType, id);
            c.id == id && if 0 <= after < |columns| then IsCopyOf(c, columns[after]) else IsEmptyColumn(c, dataType)
  {
  }

  lemma InsertRemoved<T>(s: seq<T>, i: nat, x: T)
    requires i <= |s|
    ensures Without(InsertAt(s, i, x), i) == s
  {
  }

  /** One column is added, with a new id, behind the given one or at the end. It has all
      data of the one before it but its name, which is its place, except that it is never
      AUTO_INCREMENT. */
  lemma InsertedColumn(s: ColumnList, after: int, dataType: DataType)
    requires IsNumbered(s)
    ensures var t := Apply(s, InsertDefault(after, dataType));
            |t.columns| == |s.columns| + 1
            && if 0 <= after < |s.columns| then
                 && Apply(t, RemoveAt(after + 1)) == s.(lastId := s.lastId + 1)
                 && !HasId(s, t.columns[after + 1].id)
                 && IsCopyOf(t.columns[after + 1], s.columns[after])
                 && IsNameAt(t.columns[after + 1].name, after + 1)
               else
                 && Apply(t, RemoveAt(|s.columns|)) == s.(lastId := s.lastId + 1)
                 && !HasId(s, t.columns[|s.columns|].id)
                 && IsEmptyColumn(t.columns[|s.columns|], dataType)
                 && IsNameAt(t.columns[|s.columns|].name, |s.columns|)
  {
    InsertedAtPlace(s, after, dataType);
    InsertedIs(s.columns, after, dataType, s.lastId + 1);
    NameIsAt(InsertPosition(|s.columns|, after));
  }

  lemma InsertedAtPlace(s: ColumnList, after: int, dataType: DataType)
    requires IsNumbered(s)
    ensures var t, p := Apply(s, InsertDefault(after, dataType)), InsertPosition(|s.columns|, after);
            && |t.columns| == |s.columns| + 1
            && t.columns[p] == DefaultColumn(s.columns, after, dataType, s.lastId + 1)
            && !HasId(s, t.columns[p].id) && Apply(t, RemoveAt(p)) == s.(lastId := s.lastId + 1)
  {
    var p, c := InsertPosition(|s.columns|, after), DefaultColumn(s.columns, after, dataType, s.lastId + 1);
    InsertedAt(s.columns, p, c);
    InsertRemoved(s.columns, p, c);
  }

  /** What the other edits do to the list, place by place; a place that does not exist leaves it as
      it is. */
  lemma EditIs(s: ColumnList, e: Edit)
    ensures var before, after := s.columns, Apply(s, e).columns;
            match e
            case InsertDefault(_, _) => |after| == |before| + 1
            case Append(c) => after == before + [after[|before|]] && after[|before|] == c.(id := s.lastId + 1)
            case RemoveAt(i) =>
              if 0 <= i < |before|
              then |after| == |before| - 1
                   && forall k | 0 <= k < |after| :: after[k] == before[if k < i then k else k + 1]
              else after == before
            case MoveUp(i) => if 1 <= i < |before| then HaveSwapped(before, after, i - 1) else after == before
            case MoveDown(i) => if 0 <= i < |before| - 1 then HaveSwapped(before, after, i) else after == before
            case Change(i, c) =>
              && |after| == |before|
              && forall k | 0 <= k < |after| :: after[k] == if k == i then c.(id := before[k].id) else before[k]
    ensures Apply(s, e).lastId == s.lastId + if e.InsertDefault? || e.Append? then 1 else 0
  {
  }

  /** The columns at a place and the next one have changed places. */
  predicate HaveSwapped(before: seq<Column>, after: seq<Column>, i: nat)
    requires i + 1 < |before|
  {
    && |after| == |before| && after[i] == before[i + 1] && after[i + 1] == before[i]
    && forall k | 0 <= k < |after| && k != i && k != i + 1 :: after[k] == before[k]
  }

  /** Moving a column down again undoes moving it up. */
  lemma MoveUndone(s: ColumnList, i: int)
    requires 1 <= i < |s.columns|
    ensures Apply(Apply(s, MoveUp(i)), MoveDown(i - 1)) == s
    ensures Apply(Apply(s, MoveDown(i - 1)), MoveUp(i)) == s
  {
    assert Swapped(Swapped(s.columns, i), i) == s.columns;
  }

  ghost predicate AtMostOneAutoInc(columns: seq<Column>)
  {
    forall i, j | 0 <= i < j < |columns| :: columns[i].defaultType != AutoInc || columns[j].defaultType != AutoInc
  }

  /** The user asks for no AUTO_INCREMENT column. */
  predicate SetsNoAutoInc(e: Edit)
  {
    match e
    case Append(c) => c.defaultType != AutoInc
    case Change(_, c) => c.defaultType != AutoInc
    case _ => true
  }

  lemma InsertAddsNoAutoInc(columns: seq<Column>, i: nat, c: Column)
    requires AtMostOneAutoInc(columns) && i <= |columns| && c.defaultType != AutoInc
    ensures AtMostOneAutoInc(InsertAt(columns, i, c))
  {
    InsertedAt(columns, i, c);
  }

  lemma RemoveAddsNoAutoInc(columns: seq<Column>, i: nat)
    requires AtMostOneAutoInc(columns) && i < |columns|
    ensures AtMostOneAutoInc(Without(columns, i))
  {
    WithoutAt(columns, i);
  }

  lemma StepAddsNoAutoInc(s: ColumnList, e: Edit)
    requires AtMostOneAutoInc(s.columns) && SetsNoAutoInc(e)
    ensures AtMostOneAutoInc(Apply(s, e).columns)
  {
    match e {
      case InsertDefault(after, dataType) =>
        InsertAddsNoAutoInc(s.columns, InsertPosition(|s.columns|, after),
          DefaultColumn(s.columns, after, dataType, s.lastId + 1));
      case RemoveAt(i) => if 0 <= i < |s.columns| { RemoveAddsNoAutoInc(s.columns, i); }
      case _ =>
    }
  }

  /** Inserting copies of columns, removing and moving never makes a second AUTO_INCREMENT column. */
  lemma {:induction false} RunAddsNoAutoInc(s: ColumnList, edits: seq<Edit>)
    requires AtMostOneAutoInc(s.columns) && forall e | e in edits :: SetsNoAutoInc(e)
    ensures AtMostOneAutoInc(Run(s, edits).columns)
    decreases |edits|
  {
    if edits != [] {
      var before, e := edits[..|edits| - 1], edits[|edits| - 1];
      assert e in edits;
      RunAddsNoAutoInc(s, before);
      StepAddsNoAutoInc(Run(s, before), e);
    }
  }

  // ---- where each column comes from, followed by position alone ----

  /** The origin of each column after an edit: the position it had in the structure
      that was copied, or None for a column added since. */
  function Follow(origins: seq<Option<nat>>, e: Edit): seq<Option<nat>>
  {
    match e
    case InsertDefault(after, _) => InsertAt(origins, InsertPosition(|origins|, after), None)
    case Append(_) => origins + [None]
    case RemoveAt(i) => if 0 <= i < |origins| then Without(origins, i) else origins
    case MoveUp(i) => if 1 <= i < |origins| then Swapped(origins, i) else origins
    case MoveDown(i) => if 0 <= i < |origins| - 1 then Swapped(origins, i + 1) else origins
    case Change(_, _) => origins
  }

  function Origins(size: nat, edits: seq<Edit>): seq<Option<nat>>
    decreases |edits|
  {
    if edits == [] then seq(size, i => Some(i)) else Follow(Origins(size, edits[..|edits| - 1]), edits[|edits| - 1])
  }

  ghost predicate ComesFrom(id: nat, prev: ColumnList, origin: Option<nat>)
  {
    match origin
    case None => prev.lastId < id
    case Some(j) => j < |prev.columns| && id == prev.columns[j].id
  }

  /** Each column has the id of its origin, or one handed out since. */
  ghost predicate IdsFollow(s: ColumnList, prev: ColumnList, origins: seq<Option<nat>>)
  {
    && |origins| == |s.columns| && prev.lastId <= s.lastId
    && forall k | 0 <= k < |origins| ::
         ComesFrom(s.columns[k].id, prev, origins[k])
  }

  lemma InsertFollows(s: ColumnList, i: nat, c: Column, prev: ColumnList, origins: seq<Option<nat>>)
    requires IdsFollow(s, prev, origins) && i <= |s.columns| && c.id == s.lastId + 1
    ensures IdsFollow(ColumnList(InsertAt(s.columns, i, c), s.lastId + 1), prev, InsertAt(origins, i, None))
  {
    InsertedAt(s.columns, i, c);
    InsertedAt(origins, i, None);
  }

  lemma RemoveFollows(s: ColumnList, i: nat, prev: ColumnList, origins: seq<Option<nat>>)
    requires IdsFollow(s, prev, origins) && i < |s.columns|
    ensures IdsFollow(s.(columns := Without(s.columns, i)), prev, Without(origins, i))
  {
    WithoutAt(s.columns, i);
    WithoutAt(origins, i);
  }

  lemma StepFollows(s: ColumnList, e: Edit, prev: ColumnList, origins: seq<Option<nat>>)
    requires IdsFollow(s, prev, origins)
    ensures IdsFollow(Apply(s, e), prev, Follow(origins, e))
  {
    match e {
      case InsertDefault(after, dataType) =>
        InsertFollows(s, InsertPosition(|s.columns|, after), DefaultColumn(s.columns, after, dataType, s.lastId + 1),
          prev, origins);
      case RemoveAt(i) => if 0 <= i < |s.columns| { RemoveFollows(s, i, prev, origins); }
      case _ =>
    }
  }

  lemma {:induction false} RunFollows(prev: ColumnList, edits: seq<Edit>)
    requires IsNumbered(prev)
    ensures IdsFollow(Run(prev, edits), prev, Origins(|prev.columns|, edits))
    decreases |edits|
  {
    if edits != [] {
      RunFollows(prev, edits[..|edits| - 1]);
      StepFollows(Run(prev, edits[..|edits| - 1]), edits[|edits| - 1], prev,
        Origins(|prev.columns|, edits[..|edits| - 1]));
    }
  }

  lemma {:induction false} FoundById(columns: seq<Column>, j: nat)
    requires j < |columns| && forall i, k | 0 <= i < k < |columns| :: columns[i].id != columns[k].id
    ensures ColumnById(columns, columns[j].id) == Some(columns[j])
  {
    if j > 0 {
      FoundById(columns[1..], j - 1);
    }
  }

  /** Looking a column up by id in the version before the edits finds its origin, and
      nothing for an added column. */
  lemma PairedWithOrigin(prev: ColumnList, edits: seq<Edit>, k: nat)
    requires IsNumbered(prev) && k < |Run(prev, edits).columns|
    ensures |Origins(|prev.columns|, edits)| == |Run(prev, edits).columns|
    ensures match Origins(|prev.columns|, edits)[k]
            case None => ColumnById(prev.columns, Run(prev, edits).columns[k].id) == None
            case Some(j) =>
              j < |prev.columns| && ColumnById(prev.columns, Run(prev, edits).columns[k].id) == Some(prev.columns[j])
  {
    RunFollows(prev, edits);
    match Origins(|prev.columns|, edits)[k] {
      case None =>
        forall x | x in prev.columns
          ensures x.id <= prev.lastId
        {
          var i :| 0 <= i < |prev.columns| && prev.columns[i] == x;
        }
      case Some(j) => FoundById(prev.columns, j);
    }
  }

  /** The columns the comparator reports removed are exactly those that no column of the
      edited list originates from. */
  lemma RemovedHaveNoHeir(prev: ColumnList, edits: seq<Edit>, j: nat)
    requires IsNumbered(prev) && j < |prev.columns|
    ensures ColumnById(Run(prev, edits).columns, prev.columns[j].id).None?
            <==> Some(j) !in Origins(|prev.columns|, edits)
  {
    RunFollows(prev, edits);
    var s, origins := Run(prev, edits), Origins(|prev.columns|, edits);
    if k :| 0 <= k < |origins| && origins[k] == Some(j) {
      assert s.columns[k] in s.columns;
    }
    var c := ColumnById(s.columns, prev.columns[j].id);
    if c.Some? {
      var k :| 0 <= k < |s.columns| && s.columns[k] == c.value;
      assert origins[k].Some?;
      assert origins[k].value == j;
    }
  }
}
