/** Column definitions as a server reads them: what the table editor prints says exactly what it
    is meant to, whatever texts the column holds.
 */
module DefinitionReading {
  import opened QtStrings
  import opened Schema
  import opened Escaping
  import opened Identifiers
  import opened Patterns
  import opened ColumnSql
  import opened TableStructureParser
  import opened ColumnRoundTrip
  import opened ColumnDefaults

  // ---- a server reading the attributes behind the type ----

  datatype Given =
    | NothingGiven
    | GivenNull
    | GivenTime(length: string)
    | GivenText(isBit: bool, text: string)
    | Counted

  // Whether NULL is allowed is None when neither NULL nor NOT NULL is said.
  datatype Attributes = Attributes(length: string, isUnsigned: bool, zeroFill: bool, allowNull: Option<bool>,
                                   given: Given, update: Option<string>, comment: string, collation: string)

  function ReadFlag(s: string, mark: string): (bool, string)
  {
    if StartsWith(s, mark) then (true, s[|mark|..]) else (false, s)
  }

  function ReadLength(s: string): (string, string)
  {
    if s == [] || s[0] != '(' then ([], s)
    else
      var n := Closing(s[1..], false);
      if n.None? then ([], s) else (s[1..n.value + 1], s[n.value + 2..])
  }

  function ReadNull(s: string): (Option<bool>, string)
  {
    if StartsWith(s, " NOT NULL") then (Some(false), s[9..])
    else if StartsWith(s, " NULL") then (Some(true), s[5..])
    else (None, s)
  }

  /** A literal, from its opening quote on. */
  function ReadText(s: string): (string, string)
  {
    if s == [] || s[0] != '\'' then ([], s)
    else
      var r := ReadLiteral(s[1..], true);
      if r.None? then ([], s) else r.value
  }

  function ReadGiven(s: string): (Given, string)
  {
    if StartsWith(s, " AUTO_INCREMENT") then (Counted, s[15..])
    else if StartsWith(s, " DEFAULT NULL") then (GivenNull, s[13..])
    else if StartsWith(s, " DEFAULT CURRENT_TIMESTAMP") then
      var l := ReadLength(s[26..]); (GivenTime(l.0), l.1)
    else if StartsWith(s, " DEFAULT b'") then
      var r := ReadText(s[10..]); (GivenText(true, r.0), r.1)
    else if StartsWith(s, " DEFAULT '") then
      var r := ReadText(s[9..]); (GivenText(false, r.0), r.1)
    else (NothingGiven, s)
  }

  function ReadUpdate(s: string): (Option<string>, string)
  {
    if StartsWith(s, " ON UPDATE CURRENT_TIMESTAMP") then
      var l := ReadLength(s[28..]); (Some(l.0), l.1)
    else (None, s)
  }

  function ReadMarked(s: string, mark: string): (string, string)
  {
    if StartsWith(s, mark) then ReadText(s[|mark|..]) else ([], s)
  }

  function ReadAttributes(s: string): (Attributes, string)
  {
    var length := ReadLength(s);
    var isUnsigned := ReadFlag(length.1, " UNSIGNED");
    var zeroFill := ReadFlag(isUnsigned.1, " ZEROFILL");
    var allowNull := ReadNull(zeroFill.1);
    var given := ReadGiven(allowNull.1);
    var update := ReadUpdate(given.1);
    var comment := ReadMarked(update.1, " COMMENT ");
    var collation := ReadMarked(comment.1, " COLLATE ");
    (Attributes(length.0, isUnsigned.0, zeroFill.0, allowNull.0, given.0, update.0, comment.0, collation.0),
     collation.1)
  }

  // ---- what is meant ----

  function MeantDefault(c: Column): Given
  {
    match c.defaultType
    case TextDefault => GivenText(c.dataType.isBit, c.defaultText)
    case TextUpdateTS => GivenText(c.dataType.isBit, c.defaultText)
    case NullDefault => GivenNull
    case NullUpdateTS => GivenNull
    case CurTS => GivenTime(c.lengthSet)
    case CurTSUpdateTS => GivenTime(c.lengthSet)
    case AutoInc => Counted
    case _ => NothingGiven
  }

  function MeantUpdate(c: Column): Option<string>
  {
    match c.defaultType
    case TextUpdateTS => Some(c.lengthSet)
    case NullUpdateTS => Some(c.lengthSet)
    case CurTSUpdateTS => Some(c.lengthSet)
    case _ => None
  }

  /** The attributes of a column, as far as its type has them. */
  function Meant(c: Column): Attributes
  {
    Attributes(if c.dataType.hasLength then c.lengthSet else [], c.dataType.isNumeric && c.isUnsigned,
               c.dataType.isNumeric && c.zeroFill, Some(c.allowNull), MeantDefault(c), MeantUpdate(c),
               c.comment, c.collation)
  }

  // ---- piece by piece ----

  /** What follows a definition in a statement: nothing that would belong to it. */
  predicate IsBehind(tail: string)
  {
    tail == [] || (tail[0] != ' ' && tail[0] != '(' && tail[0] != QUOTE)
  }

  lemma Marked(mark: string, x: string)
    ensures StartsWith(mark + x, mark) && (mark + x)[|mark|..] == x
  {
  }

  lemma OtherMark(s: string, mark: string, k: nat)
    requires k < |mark| && (k < |s| ==> s[k] != mark[k])
    ensures !StartsWith(s, mark)
  {
  }

  lemma UpToClosing(inner: string)
    requires Closing(inner, false).Some?
    ensures var n := Closing(inner, false).value; ReadLength("(" + inner) == (inner[..n], inner[n + 1..])
  {
    var n, s := Closing(inner, false).value, "(" + inner;
    assert s[1..] == inner;
    assert s[1..n + 1] == inner[..n] && s[n + 2..] == inner[n + 1..];
  }

  lemma ParenthesesAreRead(l: string, rest: string)
    requires IsLengthSet(l, false)
    ensures ReadLength("(" + (l + (")" + rest))) == (l, rest)
  {
    var inner := l + (")" + rest);
    SetCloses(l, false, rest);
    UpToClosing(inner);
    assert inner[..|l|] == l && inner[|l| + 1..] == rest;
  }

  lemma LengthIsRead(l: string, rest: string)
    requires IsLengthSet(l, false) && (rest == [] || rest[0] != '(')
    ensures ReadLength((if l != [] then InParentheses(l) else []) + rest) == (l, rest)
  {
    if l == [] {
      NothingBefore(rest);
    } else {
      Regroup("(", l + ")", rest);
      Regroup(l, ")", rest);
      ParenthesesAreRead(l, rest);
    }
  }

  lemma TextIsRead(text: string, rest: string)
    requires rest == [] || rest[0] != QUOTE
    ensures ReadText(MySQLEscape(text, false, true) + rest) == (text, rest)
  {
    var literal := MySQLEscape(text, false, true);
    MySQLLiteralIsRead(text, rest);
    assert (literal + rest)[1..] == literal[1..] + rest;
  }

  lemma MarkedIsRead(mark: string, text: string, rest: string)
    requires rest == [] || rest[0] != QUOTE
    requires !StartsWith(rest, mark)
    ensures ReadMarked((if text != [] then mark + MySQLEscape(text, false, true) else []) + rest, mark) == (text, rest)
  {
    if text == [] {
      NothingBefore(rest);
    } else {
      var literal := MySQLEscape(text, false, true);
      Regroup(mark, literal, rest);
      Marked(mark, literal + rest);
      TextIsRead(text, rest);
    }
  }

  /** Comment and collation, which come last. */
  function LastText(c: Column, tail: string): string
  {
    CommentText(c) + (CollateText(c) + tail)
  }

  /** What comes behind a default. */
  predicate IsLastPart(rest: string)
  {
    IsBehind(rest) || (|rest| > 1 && rest[0] == ' ' && rest[1] == 'C')
  }

  lemma CollationIsTold(c: Column, tail: string)
    requires IsBehind(tail)
    ensures ReadMarked(CollateText(c) + tail, " COLLATE ") == (c.collation, tail)
    ensures var rest := CollateText(c) + tail; !StartsWith(rest, " COMMENT ") && IsLastPart(rest)
  {
    var rest := CollateText(c) + tail;
    OtherMark(tail, " COLLATE ", 0);
    MarkedIsRead(" COLLATE ", c.collation, tail);
    if c.collation == [] {
      NothingBefore(tail);
      OtherMark(rest, " COMMENT ", 0);
    } else {
      OtherMark(rest, " COMMENT ", 3);
    }
  }

  lemma LastIsRead(c: Column, tail: string)
    requires IsBehind(tail)
    ensures var comment := ReadMarked(LastText(c, tail), " COMMENT ");
            comment == (c.comment, CollateText(c) + tail)
            && ReadMarked(comment.1, " COLLATE ") == (c.collation, tail)
    ensures IsLastPart(LastText(c, tail))
  {
    var rest := CollateText(c) + tail;
    CollationIsTold(c, tail);
    MarkedIsRead(" COMMENT ", c.comment, rest);
    if c.comment == [] {
      NothingBefore(rest);
    }
  }

  lemma UpdateShape(c: Column, rest: string)
    ensures OnUpdateText(c) + rest == " ON UPDATE CURRENT_TIMESTAMP" + (TimestampLength(c) + rest)
  {
    assert " ON UPDATE " + CURRENT_TIMESTAMP == " ON UPDATE CURRENT_TIMESTAMP";
    Regroup(" ON UPDATE " + CURRENT_TIMESTAMP, TimestampLength(c), rest);
  }

  lemma UpdateIsRead(c: Column, isPrinted: bool, rest: string)
    requires IsLengthSet(c.lengthSet, false) && IsLastPart(rest)
    ensures ReadUpdate((if isPrinted then OnUpdateText(c) else []) + rest)
         == (if isPrinted then Some(c.lengthSet) else None, rest)
  {
    if isPrinted {
      var mark := " ON UPDATE CURRENT_TIMESTAMP";
      UpdateShape(c, rest);
      Marked(mark, TimestampLength(c) + rest);
      LengthIsRead(c.lengthSet, rest);
    } else {
      NothingBefore(rest);
      OtherMark(rest, " ON UPDATE CURRENT_TIMESTAMP", if IsBehind(rest) then 0 else 1);
    }
  }

  function UpdateText(c: Column): string
  {
    if MeantUpdate(c).Some? then OnUpdateText(c) else []
  }

  /** The default without what is to happen on an update. */
  function GivenShown(c: Column): string
  {
    match MeantDefault(c)
    case NothingGiven => []
    case GivenNull => " DEFAULT NULL"
    case GivenTime(_) => " DEFAULT CURRENT_TIMESTAMP" + TimestampLength(c)
    case GivenText(_, _) => " DEFAULT " + LiteralText(c)
    case Counted => " AUTO_INCREMENT"
  }

  lemma DefaultInParts(c: Column)
    ensures DefaultText(c) == GivenShown(c) + UpdateText(c)
  {
    assert " DEFAULT " + CURRENT_TIMESTAMP == " DEFAULT CURRENT_TIMESTAMP";
    NothingBehind(GivenShown(c));
  }

  /** What comes behind a default or its place. */
  predicate IsBehindGiven(rest: string)
  {
    IsLastPart(rest) || (|rest| > 1 && rest[0] == ' ' && rest[1] == 'O')
  }

  lemma GivenIsRead(c: Column, rest: string)
    requires IsLengthSet(c.lengthSet, false) && IsBehindGiven(rest)
    ensures ReadGiven(GivenShown(c) + rest) == (MeantDefault(c), rest)
  {
    match MeantDefault(c)
    case NothingGiven =>
      NothingBefore(rest);
      NoDefaultIsRead(rest);
    case GivenNull =>
      Marked(" DEFAULT NULL", rest);
      OtherMark(" DEFAULT NULL" + rest, " AUTO_INCREMENT", 1);
    case GivenTime(_) =>
      TimeIsRead(c, rest);
    case GivenText(isBit, text) =>
      Regroup(" DEFAULT ", LiteralText(c), rest);
      TextGivenIsRead(isBit, text, rest);
    case Counted =>
      Marked(" AUTO_INCREMENT", rest);
  }

  lemma NoDefaultIsRead(rest: string)
    requires IsBehindGiven(rest)
    ensures ReadGiven(rest) == (NothingGiven, rest)
  {
    var k := if IsBehind(rest) then 0 else 1;
    OtherMark(rest, " AUTO_INCREMENT", k);
    OtherMark(rest, " DEFAULT NULL", k);
    OtherMark(rest, " DEFAULT CURRENT_TIMESTAMP", k);
    OtherMark(rest, " DEFAULT b'", k);
    OtherMark(rest, " DEFAULT '", k);
  }

  lemma TimeIsRead(c: Column, rest: string)
    requires IsLengthSet(c.lengthSet, false) && IsBehindGiven(rest)
    ensures ReadGiven(" DEFAULT CURRENT_TIMESTAMP" + TimestampLength(c) + rest) == (GivenTime(c.lengthSet), rest)
  {
    var mark := " DEFAULT CURRENT_TIMESTAMP";
    var s := mark + (TimestampLength(c) + rest);
    Regroup(mark, TimestampLength(c), rest);
    Marked(mark, TimestampLength(c) + rest);
    OtherMark(s, " AUTO_INCREMENT", 1);
    OtherMark(s, " DEFAULT NULL", 9);
    LengthIsRead(c.lengthSet, rest);
  }

  lemma TextGivenIsRead(isBit: bool, text: string, rest: string)
    requires IsBehindGiven(rest)
    ensures ReadGiven(" DEFAULT " + ((if isBit then "b" else []) + MySQLEscape(text, false, true) + rest))
         == (GivenText(isBit, text), rest)
  {
    var literal := MySQLEscape(text, false, true);
    MySQLLiteralIsRead(text, rest);
    TextIsRead(text, rest);
    NothingBefore(literal);
    if isBit {
      Regroup("b", literal, rest);
      Regroup(" DEFAULT ", "b", literal + rest);
      assert " DEFAULT " + "b" == " DEFAULT b";
      LiteralGivenIsRead(" DEFAULT b", literal + rest);
    } else {
      LiteralGivenIsRead(" DEFAULT ", literal + rest);
    }
  }

  lemma LiteralGivenIsRead(mark: string, x: string)
    requires mark == " DEFAULT b" || mark == " DEFAULT "
    requires x != [] && x[0] == QUOTE
    ensures ReadGiven(mark + x) == (GivenText(mark == " DEFAULT b", ReadText(x).0), ReadText(x).1)
  {
    var s := mark + x;
    Marked(mark, x);
    OtherMark(s, " AUTO_INCREMENT", 1);
    OtherMark(s, " DEFAULT NULL", 9);
    OtherMark(s, " DEFAULT CURRENT_TIMESTAMP", 9);
    if mark == " DEFAULT " {
      OtherMark(s, " DEFAULT b'", 9);
    }
  }

  lemma NullIsRead(allowNull: bool, rest: string)
    ensures ReadNull((if allowNull then " NULL" else " NOT NULL") + rest) == (Some(allowNull), rest)
  {
    Marked(if allowNull then " NULL" else " NOT NULL", rest);
    if allowNull {
      OtherMark(" NULL" + rest, " NOT NULL", 2);
    }
  }

  lemma FlagIsRead(isSet: bool, mark: string, rest: string)
    requires !StartsWith(rest, mark)
    ensures ReadFlag((if isSet then mark else []) + rest, mark) == (isSet, rest)
  {
    if isSet {
      Marked(mark, rest);
    } else {
      NothingBefore(rest);
    }
  }

  // ---- the results ----

  function AttributesText(c: Column, tail: string): string
  {
    LengthText(c) + (UnsignedText(c) + (ZeroFillText(c) + (NullText(c) + (DefaultText(c) + LastText(c, tail)))))
  }

  lemma UpdateIsBehind(c: Column, last: string)
    requires IsLastPart(last)
    ensures IsBehindGiven(UpdateText(c) + last)
  {
    if MeantUpdate(c).None? {
      NothingBefore(last);
    } else {
      UpdateShape(c, last);
      assert " ON UPDATE CURRENT_TIMESTAMP"[1] == 'O';
    }
  }

  lemma DefaultIsRead(c: Column, tail: string)
    requires IsLengthSet(c.lengthSet, false) && IsBehind(tail)
    ensures var given := ReadGiven(DefaultText(c) + LastText(c, tail));
            given.0 == MeantDefault(c) && ReadUpdate(given.1) == (MeantUpdate(c), LastText(c, tail))
  {
    var last := LastText(c, tail);
    LastIsRead(c, tail);
    DefaultInParts(c);
    Regroup(GivenShown(c), UpdateText(c), last);
    UpdateIsRead(c, MeantUpdate(c).Some?, last);
    UpdateIsBehind(c, last);
    GivenIsRead(c, UpdateText(c) + last);
  }

  lemma FlagsAreTold(c: Column, rest: string)
    ensures var s := UnsignedText(c) + (ZeroFillText(c) + (NullText(c) + rest));
            var isUnsigned := ReadFlag(s, " UNSIGNED");
            var zeroFill := ReadFlag(isUnsigned.1, " ZEROFILL");
            && isUnsigned.0 == (c.dataType.isNumeric && c.isUnsigned)
            && zeroFill.0 == (c.dataType.isNumeric && c.zeroFill)
            && ReadNull(zeroFill.1) == (Some(c.allowNull), rest)
            && s[0] == ' '
  {
    var n := NullText(c) + rest;
    var z := ZeroFillText(c) + n;
    NullIsRead(c.allowNull, rest);
    OtherMark(n, " ZEROFILL", 1);
    FlagIsRead(c.dataType.isNumeric && c.zeroFill, " ZEROFILL", n);
    if ZeroFillText(c) == [] {
      NothingBefore(n);
    }
    OtherMark(z, " UNSIGNED", 1);
    FlagIsRead(c.dataType.isNumeric && c.isUnsigned, " UNSIGNED", z);
  }

  lemma AttributesAreRead(c: Column, tail: string)
    requires IsLengthSet(c.lengthSet, false) && IsBehind(tail)
    ensures ReadAttributes(AttributesText(c, tail)) == (Meant(c), tail)
  {
    var rest := DefaultText(c) + LastText(c, tail);
    var flags := UnsignedText(c) + (ZeroFillText(c) + (NullText(c) + rest));
    FlagsAreTold(c, rest);
    LengthIsRead(if c.dataType.hasLength then c.lengthSet else [], flags);
    DefaultIsRead(c, tail);
    LastIsRead(c, tail);
  }

  lemma CodeShape(c: Column, tail: string, q: char)
    ensures SqlCode(c, q) + tail
         == QuoteIdentifier(c.name, true, NUL, q) + (" " + (c.dataType.name + AttributesText(c, tail)))
  {
    SqlShape(c, tail, q);
    FlagsShape(c, DefaultText(c) + (CommentText(c) + (CollateText(c) + tail)));
  }

  lemma BehindQuote(id: string, rest: string)
    requires id != []
    ensures (id + rest)[0] == id[0] && (id + rest)[1..] == id[1..] + rest
  {
  }

  lemma BehindType(t: string, a: string)
    ensures var s := " " + (t + a); StartsWith(s, " " + t) && s[1 + |t|..] == a
  {
    Regroup(" ", t, a);
    Marked(" " + t, a);
  }

  /** A printed definition is the quoted name, the type and attributes, and a server that reads
      them reads exactly the column, whatever its name, texts, comment and collation hold. */
  lemma DefinitionIsRead(c: Column, tail: string, q: char)
    requires IsLengthSet(c.lengthSet, false) && IsBehind(tail) && q != ' '
    ensures var code := SqlCode(c, q) + tail;
            && code[0] == q
            && var name := ReadName(code[1..], q);
               && name.Some? && name.value.0 == c.name
               && StartsWith(name.value.1, " " + c.dataType.name)
               && ReadAttributes(name.value.1[1 + |c.dataType.name|..]) == (Meant(c), tail)
  {
    var id, t, a := QuoteIdentifier(c.name, true, NUL, q), c.dataType.name, AttributesText(c, tail);
    CodeShape(c, tail, q);
    NameIsRead(c.name, " " + (t + a), q);
    BehindQuote(id, " " + (t + a));
    BehindType(t, a);
    AttributesAreRead(c, tail);
  }

  /** So two columns of a type are printed alike if and only if they mean the same. */
  lemma PrintedAlikeIff(a: Column, b: Column, q: char)
    requires IsLengthSet(a.lengthSet, false) && IsLengthSet(b.lengthSet, false) && q != ' '
    requires a.dataType == b.dataType
    ensures SqlCode(a, q) == SqlCode(b, q) <==> a.name == b.name && Meant(a) == Meant(b)
  {
    DefinitionIsRead(a, [], q);
    DefinitionIsRead(b, [], q);
    if a.name == b.name && Meant(a) == Meant(b) {
      MeantAlike(a, b);
    } else {
      NothingBehind(SqlCode(a, q));
      NothingBehind(SqlCode(b, q));
    }
  }

  lemma MeantAlike(a: Column, b: Column)
    requires a.dataType == b.dataType && Meant(a) == Meant(b)
    ensures LengthText(a) == LengthText(b) && UnsignedText(a) == UnsignedText(b) && ZeroFillText(a) == ZeroFillText(b)
    ensures NullText(a) == NullText(b) && DefaultText(a) == DefaultText(b)
    ensures CommentText(a) == CommentText(b) && CollateText(a) == CollateText(b)
  {
    DefaultInParts(a);
    DefaultInParts(b);
    GivenAlike(a, b);
  }

  lemma GivenAlike(a: Column, b: Column)
    requires a.dataType == b.dataType && MeantDefault(a) == MeantDefault(b) && MeantUpdate(a) == MeantUpdate(b)
    ensures GivenShown(a) == GivenShown(b) && UpdateText(a) == UpdateText(b)
  {
  }
}
