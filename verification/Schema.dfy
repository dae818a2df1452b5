/** Columns, indexes and foreign keys of a table as values, and the comparison
    functions of TableColumn, TableIndex and ForeignKey.
 */
module Schema {
  import opened QtStrings

  datatype DefaultType =
    | NoDefault
    | TextDefault
    | TextUpdateTS
    | NullDefault
    | NullUpdateTS
    | CurTS
    | CurTSUpdateTS
    | AutoInc
    | CurTime
    | CurDate

  // What the column printer and parser need to know of a DataType.
  datatype DataType = DataType(name: string, hasLength: bool, isNumeric: bool, isBit: bool)

  datatype Column = Column(
    id: nat,
    name: string,
    dataType: DataType,
    lengthSet: string,
    isUnsigned: bool,
    allowNull: bool,
    zeroFill: bool,
    defaultType: DefaultType,
    defaultText: string,
    comment: string,
    charset: string,
    collation: string)

  datatype IndexClass = NoClass | PrimaryKey | Key | Unique | FullText | Spatial

  datatype IndexType = NoType | BTree | Hash | RTree

  // Indexes and foreign keys refer to columns of their table by id.
  datatype Index = Index(id: nat, name: string, cls: IndexClass, kind: IndexType, columnIds: seq<nat>)

  datatype ReferenceOption = NoAction | Restrict | Cascade | SetNull | SetDefault

  datatype ForeignKey = ForeignKey(
    id: nat,
    name: string,
    columnIds: seq<nat>,
    referenceTable: string,
    referenceColumns: seq<string>,
    onUpdate: ReferenceOption,
    onDelete: ReferenceOption)

  datatype Table = Table(columns: seq<Column>, indexes: seq<Index>, foreignKeys: seq<ForeignKey>)

  /** TableColumn::dataDiffers: every field but the id. */
  predicate ColumnDiffers(a: Column, b: Column)
  {
    || a.name != b.name
    || a.dataType != b.dataType
    || a.lengthSet != b.lengthSet
    || a.isUnsigned != b.isUnsigned
    || a.allowNull != b.allowNull
    || a.zeroFill != b.zeroFill
    || a.defaultType != b.defaultType
    || a.defaultText != b.defaultText
    || a.comment != b.comment
    || a.charset != b.charset
    || a.collation != b.collation
  }

  function ToSet<T>(s: seq<T>): set<T>
  {
    set x | x in s
  }

  /** The nested loops of the dataDiffers functions: whether an element of the
      first list is missing in the second. */
  method IsNotSubset<T(==)>(columns1: seq<T>, columns2: seq<T>) returns (missing: bool)
    ensures missing <==> !(ToSet(columns1) <= ToSet(columns2))
  {
    for i := 0 to |columns1|
      invariant forall x | x in columns1[..i] :: x in columns2
    {
      var found := false;
      for j := 0 to |columns2|
        invariant !found && columns1[i] !in columns2[..j]
      {
        if columns1[i] == columns2[j] {
          found := true;
          break;
        }
      }
      if !found {
        assert columns1[i] in ToSet(columns1) && columns1[i] !in ToSet(columns2);
        return true;
      }
    }
    return false;
  }

  /** TableIndex::dataDiffers: the columns count as a set. */
  predicate IndexDiffers(a: Index, b: Index)
  {
    a.name != b.name || a.cls != b.cls || a.kind != b.kind || ToSet(a.columnIds) != ToSet(b.columnIds)
  }

  function ToLowerChar(c: char): char
  {
    if 'A' <= c <= 'Z' then ((c as int) + 32) as char else c
  }

  function ToLower(s: string): string
  {
    if s == [] then [] else [ToLowerChar(s[0])] + ToLower(s[1..])
  }

  function LowerSet(names: seq<string>): set<string>
  {
    set n | n in names :: ToLower(n)
  }

  /** ForeignKey::dataDiffers: columns count as sets, reference columns without case. */
  predicate ForeignKeyDiffers(a: ForeignKey, b: ForeignKey)
  {
    || a.name != b.name
    || a.referenceTable != b.referenceTable
    || a.onUpdate != b.onUpdate
    || a.onDelete != b.onDelete
    || ToSet(a.columnIds) != ToSet(b.columnIds)
    || LowerSet(a.referenceColumns) != LowerSet(b.referenceColumns)
  }

  method IndexDataDiffers(a: Index, b: Index) returns (differs: bool)
    ensures differs == IndexDiffers(a, b)
  {
    if a.name != b.name || a.cls != b.cls || a.kind != b.kind {
      return true;
    }
    differs := IsNotSubset(a.columnIds, b.columnIds);
    if !differs {
      differs := IsNotSubset(b.columnIds, a.columnIds);
    }
  }

  function ColumnById(columns: seq<Column>, id: nat): (c: Option<Column>)
    ensures c.Some? ==> c.value in columns && c.value.id == id
    ensures c.None? ==> forall x | x in columns :: x.id != id
  {
    if columns == [] then None
    else if columns[0].id == id then Some(columns[0])
    else ColumnById(columns[1..], id)
  }

  function IndexById(indexes: seq<Index>, id: nat): (x: Option<Index>)
    ensures x.Some? ==> x.value in indexes && x.value.id == id
    ensures x.None? ==> forall y | y in indexes :: y.id != id
  {
    if indexes == [] then None
    else if indexes[0].id == id then Some(indexes[0])
    else IndexById(indexes[1..], id)
  }

  function ForeignKeyById(keys: seq<ForeignKey>, id: nat): (x: Option<ForeignKey>)
    ensures x.Some? ==> x.value in keys && x.value.id == id
    ensures x.None? ==> forall y | y in keys :: y.id != id
  {
    if keys == [] then None
    else if keys[0].id == id then Some(keys[0])
    else ForeignKeyById(keys[1..], id)
  }
}
