/** MySQLTableEditor::sqlCode: the definition of a column as the table editor prints it. */
module ColumnSql {
  import opened QtStrings
  import opened Schema
  import opened Escaping
  import opened Identifiers
  import opened Patterns

  function InParentheses(s: string): string
  {
    "(" + (s + ")")
  }

  function LengthText(c: Column): string
  {
    if c.lengthSet != [] && c.dataType.hasLength then InParentheses(c.lengthSet) else []
  }

  function UnsignedText(c: Column): string
  {
    if c.dataType.isNumeric && c.isUnsigned then " UNSIGNED" else []
  }

  function ZeroFillText(c: Column): string
  {
    if c.dataType.isNumeric && c.zeroFill then " ZEROFILL" else []
  }

  function NullText(c: Column): string
  {
    if c.allowNull then " NULL" else " NOT NULL"
  }

  /** The length printed behind CURRENT_TIMESTAMP. */
  function TimestampLength(c: Column): string
  {
    if c.lengthSet != [] then InParentheses(c.lengthSet) else []
  }

  function OnUpdateText(c: Column): string
  {
    " ON UPDATE " + CURRENT_TIMESTAMP + TimestampLength(c)
  }

  function LiteralText(c: Column): string
  {
    (if c.dataType.isBit then "b" else []) + MySQLEscape(c.defaultText, false, true)
  }

  function DefaultText(c: Column): string
  {
    match c.defaultType
    case TextDefault => " DEFAULT " + LiteralText(c)
    case TextUpdateTS => " DEFAULT " + LiteralText(c) + OnUpdateText(c)
    case NullDefault => " DEFAULT NULL"
    case NullUpdateTS => " DEFAULT NULL" + OnUpdateText(c)
    case CurTS => " DEFAULT " + CURRENT_TIMESTAMP + TimestampLength(c)
    case CurTSUpdateTS => " DEFAULT " + CURRENT_TIMESTAMP + TimestampLength(c) + OnUpdateText(c)
    case AutoInc => " AUTO_INCREMENT"
    case NoDefault => []
    case CurTime => []
    case CurDate => []
  }

  function CommentText(c: Column): string
  {
    if c.comment != [] then " COMMENT " + MySQLEscape(c.comment, false, true) else []
  }

  function CollateText(c: Column): string
  {
    if c.collation != [] then " COLLATE " + MySQLEscape(c.collation, false, true) else []
  }

  function SqlCode(c: Column, q: char): string
  {
    QuoteIdentifier(c.name, true, NUL, q) + " " + c.dataType.name + LengthText(c) + UnsignedText(c) + ZeroFillText(c)
    + NullText(c) + DefaultText(c) + CommentText(c) + CollateText(c)
  }
}
