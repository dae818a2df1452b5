/** TableStructure as objects that are edited in place: deep copy, insertion, removal and
    moves of columns, and the ids by which two versions of a table are compared.
 */
module TableStructure {
  import opened QtStrings
  import opened Schema

  class TableColumn {
    var id: nat
    var name: string
    var dataType: DataType
    var lengthSet: string
    var isUnsigned: bool
    var allowNull: bool
    var zeroFill: bool
    var defaultType: DefaultType
    var defaultText: string
    var comment: string
    var charset: string
    var collation: string

    function View(): Column
      reads this
    {
      Column(id, name, dataType, lengthSet, isUnsigned, allowNull, zeroFill, defaultType, defaultText, comment,
        charset, collation)
    }

    constructor (c: Column)
      ensures View() == c
      ensures id == c.id && name == c.name && dataType == c.dataType && lengthSet == c.lengthSet
      ensures isUnsigned == c.isUnsigned && allowNull == c.allowNull && zeroFill == c.zeroFill
      ensures defaultType == c.defaultType && defaultText == c.defaultText
      ensures comment == c.comment && charset == c.charset && collation == c.collation
    {
      id, name, dataType, lengthSet := c.id, c.name, c.dataType, c.lengthSet;
      isUnsigned, allowNull, zeroFill := c.isUnsigned, c.allowNull, c.zeroFill;
      defaultType, defaultText := c.defaultType, c.defaultText;
      comment, charset, collation := c.comment, c.charset, c.collation;
    }
  }

  class TableIndex {
    var id: nat
    var name: string
    var cls: IndexClass
    var kind: IndexType
    var columnIds: seq<nat>

    function View(): Index
      reads this
    {
      Index(id, name, cls, kind, columnIds)
    }

    constructor (x: Index)
      ensures View() == x
      ensures id == x.id && name == x.name && cls == x.cls && kind == x.kind && columnIds == x.columnIds
    {
      id, name, cls, kind, columnIds := x.id, x.name, x.cls, x.kind, x.columnIds;
    }
  }

  /** A foreign key points to the column objects of its table. */
  class TableForeignKey {
    var id: nat
    var name: string
    var columns: seq<TableColumn>
    var referenceTable: string
    var referenceColumns: seq<string>
    var onUpdate: ReferenceOption
    var onDelete: ReferenceOption

    function View(): ForeignKey
      reads this, columns
    {
      ForeignKey(id, name, IdsOf(columns), referenceTable, referenceColumns, onUpdate, onDelete)
    }

    constructor (k: TableForeignKey, resolved: seq<TableColumn>)
      ensures id == k.id && name == k.name && columns == resolved && referenceTable == k.referenceTable
      ensures referenceColumns == k.referenceColumns && onUpdate == k.onUpdate && onDelete == k.onDelete
    {
      id, name, columns, referenceTable := k.id, k.name, resolved, k.referenceTable;
      referenceColumns, onUpdate, onDelete := k.referenceColumns, k.onUpdate, k.onDelete;
    }
  }

  function IdsOf(columns: seq<TableColumn>): seq<nat>
    reads columns
  {
    seq(|columns|, i requires 0 <= i < |columns| reads columns => columns[i].id)
  }

  function ColumnViews(columns: seq<TableColumn>): seq<Column>
    reads columns
  {
    seq(|columns|, i requires 0 <= i < |columns| reads columns => columns[i].View())
  }

  // ---- edits of the column list, as functions ----

  /** The columns and the counter the ids of new columns come from. */
  datatype ColumnList = ColumnList(columns: seq<Column>, lastId: nat)

  datatype Edit =
    | InsertDefault(afterIndex: int, defaultType: DataType)
    | Append(column: Column)
    | RemoveAt(index: int)
    | MoveUp(index: int)
    | MoveDown(index: int)
    | Change(position: nat, data: Column)

  function InsertAt<T>(s: seq<T>, i: nat, x: T): seq<T>
    requires i <= |s|
  {
    s[..i] + [x] + s[i..]
  }

  function Without<T>(s: seq<T>, i: nat): seq<T>
    requires i < |s|
  {
    s[..i] + s[i + 1..]
  }

  function Swapped<T>(s: seq<T>, i: nat): seq<T>
    requires 1 <= i < |s|
  {
    s[i - 1 := s[i]][i := s[i - 1]]
  }

  function DigitString(n: nat): string
  {
    if n < 10 then [(n + '0' as int) as char] else DigitString(n / 10) + [(n % 10 + '0' as int) as char]
  }

  function EmptyColumn(dataType: DataType): Column
  {
    Column(0, [], dataType, [], false, true, false, NoDefault, [], [], [], [])
  }

  function InsertPosition(size: nat, afterIndex: int): nat
  {
    if 0 <= afterIndex < size then afterIndex + 1 else size
  }

  /** A copy of the column inserted after, which must not be AUTO_INCREMENT twice,
      or a new nullable column. */
  function TemplateColumn(columns: seq<Column>, afterIndex: int, dataType: DataType): Column
  {
    if !(0 <= afterIndex < |columns|) then EmptyColumn(dataType)
    else if columns[afterIndex].defaultType == AutoInc
         then columns[afterIndex].(defaultType := TextDefault, defaultText := "0")
    else columns[afterIndex]
  }

  /** What insertEmptyDefaultColumn inserts. */
  function DefaultColumn(columns: seq<Column>, afterIndex: int, dataType: DataType, id: nat): Column
  {
    TemplateColumn(columns, afterIndex, dataType)
      .(name := "column_" + DigitString(InsertPosition(|columns|, afterIndex) + 1), id := id)
  }

  function Apply(s: ColumnList, e: Edit): ColumnList
  {
    match e
    case InsertDefault(after, dataType) =>
      var c := DefaultColumn(s.columns, after, dataType, s.lastId + 1);
      ColumnList(InsertAt(s.columns, InsertPosition(|s.columns|, after), c), s.lastId + 1)
    case Append(c) => ColumnList(s.columns + [c.(id := s.lastId + 1)], s.lastId + 1)
    case RemoveAt(i) => if 0 <= i < |s.columns| then s.(columns := Without(s.columns, i)) else s
    case MoveUp(i) => if 1 <= i < |s.columns| then s.(columns := Swapped(s.columns, i)) else s
    case MoveDown(i) => if 0 <= i < |s.columns| - 1 then s.(columns := Swapped(s.columns, i + 1)) else s
    case Change(i, c) => if i < |s.columns| then s.(columns := s.columns[i := c.(id := s.columns[i].id)]) else s
  }

  function Run(s: ColumnList, edits: seq<Edit>): ColumnList
    decreases |edits|
  {
    if edits == [] then s else Apply(Run(s, edits[..|edits| - 1]), edits[|edits| - 1])
  }

  class Structure {
    var columns: seq<TableColumn>
    var indexes: seq<TableIndex>
    var foreignKeys: seq<TableForeignKey>
    var lastColumnId: nat
    var lastIndexId: nat
    var lastForeignKeyId: nat

    constructor ()
      ensures columns == [] && indexes == [] && foreignKeys == []
      ensures lastColumnId == lastIndexId == lastForeignKeyId == 0
    {
      columns, indexes, foreignKeys := [], [], [];
      lastColumnId, lastIndexId, lastForeignKeyId := 0, 0, 0;
    }

    /** Columns are separate objects. */
    ghost predicate Valid()
      reads this
    {
      forall i, j | 0 <= i < j < |columns| :: columns[i] != columns[j]
    }

    function List(): ColumnList
      reads this, columns
    {
      ColumnList(ColumnViews(columns), lastColumnId)
    }

    method InsertEmptyDefaultColumn(afterIndex: int, dataType: DataType) returns (position: nat)
      requires Valid()
      modifies `columns, `lastColumnId
      ensures Valid() && List() == Apply(old(List()), InsertDefault(afterIndex, dataType))
      ensures position == InsertPosition(old(|columns|), afterIndex) < |columns| && fresh(columns[position])
    {
      position := InsertPosition(|columns|, afterIndex);
      var column := NewDefaultColumn(afterIndex, dataType);
      InsertColumn(position, column);
    }

    /** The column to insert, with the next id and a name after its position. */
    method NewDefaultColumn(afterIndex: int, dataType: DataType) returns (column: TableColumn)
      modifies `lastColumnId
      ensures fresh(column) && lastColumnId == old(lastColumnId) + 1
      ensures column.View() == DefaultColumn(ColumnViews(columns), afterIndex, dataType, lastColumnId)
    {
      column := NewFromTemplate(afterIndex, dataType);
      column.name := "column_" + DigitString(InsertPosition(|columns|, afterIndex) + 1);
      lastColumnId := lastColumnId + 1;
      column.id := lastColumnId;
    }

    method NewFromTemplate(afterIndex: int, dataType: DataType) returns (column: TableColumn)
      ensures fresh(column) && column.View() == TemplateColumn(ColumnViews(columns), afterIndex, dataType)
    {
      if 0 <= afterIndex < |columns| {
        column := new TableColumn(columns[afterIndex].View());
        if columns[afterIndex].defaultType == AutoInc {
          column.defaultType := TextDefault;
          column.defaultText := "0";
        }
      } else {
        column := new TableColumn(EmptyColumn(dataType));
      }
    }

    /** QList::insert */
    method InsertColumn(position: nat, column: TableColumn)
      requires Valid() && position <= |columns| && column !in columns
      modifies `columns
      ensures Valid() && columns == old(columns[..position] + [column] + columns[position..])
      ensures ColumnViews(columns) == InsertAt(old(ColumnViews(columns)), position, column.View())
    {
      columns := columns[..position] + [column] + columns[position..];
    }

    method AppendColumn(column: TableColumn)
      requires Valid() && column !in columns
      modifies `columns, `lastColumnId, column`id
      ensures Valid() && List() == Apply(old(List()), Append(old(column.View())))
    {
      lastColumnId := lastColumnId + 1;
      column.id := lastColumnId;
      columns := columns + [column];
    }

    method RemoveColumnAt(index: int) returns (removed: bool)
      requires Valid()
      modifies `columns
      ensures Valid() && List() == Apply(old(List()), RemoveAt(index))
      ensures removed == (0 <= index < old(|columns|))
    {
      removed := 0 <= index < |columns|;
      if removed {
        columns := columns[..index] + columns[index + 1..];
      }
    }

    method MoveColumnUp(index: int) returns (moved: bool)
      requires Valid()
      modifies `columns
      ensures Valid() && List() == Apply(old(List()), MoveUp(index))
      ensures moved == (1 <= index < |columns|)
    {
      moved := 1 <= index < |columns|;
      if moved {
        columns := columns[index - 1 := columns[index]][index := columns[index - 1]];
      }
    }

    method MoveColumnDown(index: int) returns (moved: bool)
      requires Valid()
      modifies `columns
      ensures Valid() && List() == Apply(old(List()), MoveDown(index))
      ensures moved == (0 <= index < |columns| - 1)
    {
      moved := 0 <= index < |columns| - 1;
      if moved {
        columns := columns[index := columns[index + 1]][index + 1 := columns[index]];
      }
    }

    method ColumnById(id: nat) returns (column: TableColumn?)
      ensures column == null ==> Schema.ColumnById(ColumnViews(columns), id) == None
      ensures column != null ==> column in columns && Schema.ColumnById(ColumnViews(columns), id) == Some(column.View())
    {
      ghost var views := ColumnViews(columns);
      for i := 0 to |columns|
        invariant Schema.ColumnById(views, id) == Schema.ColumnById(views[i..], id)
      {
        assert views[i..][1..] == views[i + 1..];
        if columns[i].id == id {
          return columns[i];
        }
      }
      return null;
    }

    method ColumnByName(name: string) returns (column: TableColumn?)
      ensures column == Named(columns, name)
    {
      for i := 0 to |columns|
        invariant Named(columns, name) == Named(columns[i..], name)
      {
        assert columns[i..][1..] == columns[i + 1..];
        if columns[i].name == name {
          return columns[i];
        }
      }
      return null;
    }

    method Take(columns: seq<TableColumn>, indexes: seq<TableIndex>, foreignKeys: seq<TableForeignKey>)
      modifies `columns, `indexes, `foreignKeys
      ensures this.columns == columns && this.indexes == indexes && this.foreignKeys == foreignKeys
    {
      this.columns, this.indexes, this.foreignKeys := columns, indexes, foreignKeys;
    }

    method TakeCounters(columnId: nat, indexId: nat, foreignKeyId: nat)
      modifies `lastColumnId, `lastIndexId, `lastForeignKeyId
      ensures lastColumnId == columnId && lastIndexId == indexId && lastForeignKeyId == foreignKeyId
    {
      lastColumnId, lastIndexId, lastForeignKeyId := columnId, indexId, foreignKeyId;
    }

    /** A copy to edit: equal data, equal counters, and foreign keys that point to
        the copied columns of the same names. */
    method DeepCopy() returns (copy: Structure)
      requires Valid()
      ensures fresh(copy) && copy.Valid()
      ensures (forall c | c in copy.columns :: fresh(c)) && (forall x | x in copy.indexes :: fresh(x))
      ensures forall k | k in copy.foreignKeys :: fresh(k) && forall c | c in k.columns :: c in copy.columns
      ensures copy.List() == List() && AreCopies(copy.indexes, indexes)
      ensures copy.lastIndexId == lastIndexId && copy.lastForeignKeyId == lastForeignKeyId
      ensures |copy.foreignKeys| == |foreignKeys|
      ensures forall k | 0 <= k < |foreignKeys| :: IsResolvedCopy(copy.foreignKeys[k], foreignKeys[k], copy.columns)
    {
      copy := new Structure();
      copy.TakeCounters(lastColumnId, lastIndexId, lastForeignKeyId);
      var columnCopies := CopyColumns(columns);
      var indexCopies := CopyIndexes(indexes);
      var keyCopies := CopyKeys(foreignKeys, columnCopies);
      copy.Take(columnCopies, indexCopies, keyCopies);
    }
  }

  function Named(columns: seq<TableColumn>, name: string): (c: TableColumn?)
    reads columns
    ensures c != null ==> c in columns && c.name == name
    ensures c == null ==> forall x | x in columns :: x.name != name
  {
    if columns == [] then null
    else if columns[0].name == name then columns[0]
    else Named(columns[1..], name)
  }

  method CopyColumns(columns: seq<TableColumn>) returns (copies: seq<TableColumn>)
    ensures ColumnViews(copies) == ColumnViews(columns)
    ensures forall c | c in copies :: fresh(c)
    ensures forall i, j | 0 <= i < j < |copies| :: copies[i] != copies[j]
  {
    copies := [];
    for i := 0 to |columns|
      invariant |copies| == i && forall k | 0 <= k < i :: fresh(copies[k]) && copies[k].View() == columns[k].View()
      invariant forall k, j | 0 <= k < j < i :: copies[k] != copies[j]
    {
      var copy := new TableColumn(columns[i].View());
      copies := copies + [copy];
    }
  }

  ghost predicate AreCopies(copies: seq<TableIndex>, indexes: seq<TableIndex>)
    reads copies, indexes
  {
    |copies| == |indexes| && forall k | 0 <= k < |copies| :: copies[k].View() == indexes[k].View()
  }

  method CopyIndexes(indexes: seq<TableIndex>) returns (copies: seq<TableIndex>)
    ensures AreCopies(copies, indexes)
    ensures forall x | x in copies :: fresh(x)
  {
    copies := [];
    for i := 0 to |indexes|
      invariant |copies| == i && forall k | 0 <= k < i :: fresh(copies[k]) && copies[k].View() == indexes[k].View()
    {
      var copy := new TableIndex(indexes[i].View());
      copies := copies + [copy];
    }
  }

  /** The columns that have the names of the given ones, as far as there are such columns. */
  function ResolvedColumns(cs: seq<TableColumn>, columns: seq<TableColumn>, n: nat): (resolved: seq<TableColumn>)
    requires n <= |cs|
    reads cs, columns
    ensures forall c | c in resolved :: c in columns
  {
    if n == 0 then []
    else
      var c := Named(columns, cs[n - 1].name);
      ResolvedColumns(cs, columns, n - 1) + if c == null then [] else [c]
  }

  ghost predicate IsResolvedCopy(copy: TableForeignKey, k: TableForeignKey, columns: seq<TableColumn>)
    reads copy, k, k.columns, columns
  {
    && copy.id == k.id && copy.name == k.name
    && copy.columns == ResolvedColumns(k.columns, columns, |k.columns|)
    && copy.referenceTable == k.referenceTable && copy.referenceColumns == k.referenceColumns
    && copy.onUpdate == k.onUpdate && copy.onDelete == k.onDelete
  }

  /** ForeignKey::deepCopy */
  method CopyKey(k: TableForeignKey, columns: seq<TableColumn>) returns (copy: TableForeignKey)
    ensures fresh(copy) && IsResolvedCopy(copy, k, columns)
  {
    var resolved := [];
    for i := 0 to |k.columns|
      invariant resolved == ResolvedColumns(k.columns, columns, i)
    {
      var c := Named(columns, k.columns[i].name);
      if c != null {
        resolved := resolved + [c];
      }
    }
    copy := new TableForeignKey(k, resolved);
  }

  method CopyKeys(keys: seq<TableForeignKey>, columns: seq<TableColumn>) returns (copies: seq<TableForeignKey>)
    ensures |copies| == |keys| && forall k | k in copies :: fresh(k) && forall c | c in k.columns :: c in columns
    ensures forall k | 0 <= k < |keys| :: IsResolvedCopy(copies[k], keys[k], columns)
  {
    copies := [];
    for i := 0 to |keys|
      invariant |copies| == i
      invariant forall k | 0 <= k < i :: fresh(copies[k]) && IsResolvedCopy(copies[k], keys[k], columns)
    {
      var copy := CopyKey(keys[i], columns);
      copies := copies + [copy];
    }
  }

  lemma {:induction false} NamedAt(columns: seq<TableColumn>, i: nat)
    requires i < |columns| && forall j | 0 <= j < i :: columns[j].name != columns[i].name
    ensures Named(columns, columns[i].name) == columns[i]
  {
    if i > 0 {
      NamedAt(columns[1..], i - 1);
    }
  }

  lemma SameViewAt(a: seq<TableColumn>, b: seq<TableColumn>, k: nat)
    requires ColumnViews(a) == ColumnViews(b) && k < |b|
    ensures |a| == |b| && a[k].View() == b[k].View()
  {
    assert |a| == |ColumnViews(a)| && |b| == |ColumnViews(b)|;
    assert ColumnViews(a)[k] == a[k].View() && ColumnViews(b)[k] == b[k].View();
  }

  lemma IdsOfAppend(cs: seq<TableColumn>, c: TableColumn)
    ensures IdsOf(cs + [c]) == IdsOf(cs) + [c.id]
  {
  }

  /** Foreign keys survive copying when column names are distinct and the keys point to
      columns of their table: what they refer to, by id, is the same. */
  lemma {:induction false} ResolvedIds(cs: seq<TableColumn>, columns: seq<TableColumn>, copies: seq<TableColumn>,
                                       n: nat)
    requires n <= |cs| && ColumnViews(copies) == ColumnViews(columns)
    requires forall i, j | 0 <= i < j < |columns| :: columns[i].name != columns[j].name
    requires forall c | c in cs :: c in columns
    ensures IdsOf(ResolvedColumns(cs, copies, n)) == IdsOf(cs[..n])
  {
    if n == 0 {
      assert cs[..n] == [];
    } else {
      ResolvedIds(cs, columns, copies, n - 1);
      assert cs[n - 1] in cs;
      var i :| 0 <= i < |columns| && columns[i] == cs[n - 1];
      forall k | 0 <= k < |columns|
        ensures copies[k].name == columns[k].name && copies[k].id == columns[k].id
      {
        SameViewAt(copies, columns, k);
      }
      NamedAt(copies, i);
      IdsOfAppend(ResolvedColumns(cs, copies, n - 1), copies[i]);
      IdsOfAppend(cs[..n - 1], cs[n - 1]);
      assert cs[..n] == cs[..n - 1] + [cs[n - 1]];
    }
  }

  lemma CopiedKeyIsEqual(copy: TableForeignKey, k: TableForeignKey, columns: seq<TableColumn>, copies: seq<TableColumn>)
    requires ColumnViews(copies) == ColumnViews(columns) && IsResolvedCopy(copy, k, copies)
    requires forall i, j | 0 <= i < j < |columns| :: columns[i].name != columns[j].name
    requires forall c | c in k.columns :: c in columns
    ensures copy.View() == k.View()
  {
    ResolvedIds(k.columns, columns, copies, |k.columns|);
    assert k.columns[..|k.columns|] == k.columns;
  }
}
