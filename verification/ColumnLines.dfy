/** TableStructureParser::parseColumns: the lines of a CREATE TABLE statement that define columns,
    and the round trip of all columns of a table.
 */
module ColumnLines {
  import opened QtStrings
  import opened Schema
  import opened Escaping
  import opened Identifiers
  import opened Patterns
  import opened ColumnSql
  import opened TableStructureParser
  import opened ColumnRoundTrip
  import opened ColumnDefaults

  // ---- the lines that are captured ----

  function LineEnd(s: string): (n: nat)
    ensures n <= |s| && LF !in s[..n] && (n < |s| ==> s[n] == LF)
  {
    if s == [] || s[0] == LF then 0
    else
      var n := LineEnd(s[1..]);
      assert s[..n + 1] == [s[0]] + s[1..][..n];
      n + 1
  }

  /** ^\s+([q].+),?$ at the start of a line: white space, also over line breaks, the quote and
      at least one more character. The last part takes the comma, too. */
  function Captured(s: string, q: char): Option<(nat, nat)>
  {
    var n := PatternSpaces(s);
    if n > 0 && n + 1 < |s| && s[n] == q && s[n + 1] != LF then Some((n, n + 1 + LineEnd(s[n + 1..]))) else None
  }

  /** The captures of all matches, one after another, in a text that may begin a line. */
  function Captures(s: string, atStart: bool, q: char): seq<string>
    decreases s
  {
    if s == [] then []
    else if atStart && Captured(s, q).Some? then
      var m := Captured(s, q).value;
      [s[m.0..m.1]] + Captures(s[m.1..], false, q)
    else Captures(s[1..], s[0] == LF, q)
  }

  /** What is read from each line: a column that has no id yet, or nothing. */
  function ReadLines(lines: seq<string>, types: seq<DataType>, q: char): seq<Option<Column>>
  {
    seq(|lines|, i requires 0 <= i < |lines| => ParsedColumn(lines[i], 0, types, q))
  }

  /** The columns among them from index i on. */
  function Columns(parsed: seq<Option<Column>>, i: nat): seq<Column>
    requires i <= |parsed|
    decreases |parsed| - i
  {
    if i == |parsed| then []
    else (if parsed[i].Some? then [parsed[i].value] else []) + Columns(parsed, i + 1)
  }

  function ColumnsIn(createSQL: string, types: seq<DataType>, q: char): seq<Column>
  {
    Columns(ReadLines(Captures(createSQL, true, q), types, q), 0)
  }

  method ParseColumns(createSQL: string, types: seq<DataType>, q: char) returns (columns: seq<Column>)
    ensures columns == ColumnsIn(createSQL, types, q)
  {
    columns := [];
    var matches := Captures(createSQL, true, q);
    ghost var parsed := ReadLines(matches, types, q);
    NothingBefore(Columns(parsed, 0));
    for i := 0 to |matches|
      invariant columns + Columns(parsed, i) == Columns(parsed, 0)
    {
      var column := ParseColumn(matches[i], 0, types, q);
      assert parsed[i] == column;
      if column.Some? {
        AppendOne(columns, column.value, Columns(parsed, i + 1));
        columns := columns + [column.value];
      } else {
        NothingBefore(Columns(parsed, i + 1));
      }
    }
    NothingBehind(columns);
  }

  // ---- what is read from a line holds no line break ----

  predicate OneLine(s: string)
  {
    LF !in s
  }

  predicate IsOneLine(c: Column)
  {
    && OneLine(c.name) && OneLine(c.dataType.name) && OneLine(c.lengthSet) && OneLine(c.defaultText)
    && OneLine(c.comment) && OneLine(c.charset) && OneLine(c.collation)
  }

  lemma SliceIsOneLine(s: string, a: nat, b: nat)
    requires OneLine(s) && a <= b <= |s|
    ensures OneLine(s[a..b])
  {
  }

  lemma RestIsOneLine(s: string, a: nat)
    requires OneLine(s) && a <= |s|
    ensures OneLine(s[a..])
  {
  }

  lemma TrimmedIsOneLine(s: string)
    requires OneLine(s)
    ensures OneLine(Trimmed(s))
  {
    var a := SkipSpaces(s, 0, |s|);
    SliceIsOneLine(s, a, TrimEnd(s, a, |s|));
  }

  lemma IdIsOneLine(s: string, q: char)
    requires OneLine(s)
    ensures OneLine(Id(s, q).0) && OneLine(Id(s, q).1)
  {
    var left := IndexOf(s, q) + 1;
    if left > 0 {
      RestIsOneLine(s, left);
    }
  }

  lemma StartsFromIsOneLine(s: string, needle: string)
    requires OneLine(s)
    ensures OneLine(StartsFrom(s, needle).1)
  {
    RestIsOneLine(s, Spaces(s));
  }

  lemma TypeIsOneLine(s: string, types: seq<DataType>)
    requires OneLine(s)
    ensures OneLine(TypeByName(s, types).0.name) && OneLine(TypeByName(s, types).1)
  {
    RestIsOneLine(s, Spaces(s));
    var t := TypeIn(types, s[Spaces(s)..]);
    if t.Some? {
      forall k | 0 <= k < |t.value.name|
        ensures t.value.name[k] != LF
      {
        assert ToLowerChar(s[Spaces(s)..][k]) == ToLowerChar(t.value.name[k]);
        assert s[Spaces(s)..][k] in s[Spaces(s)..];
      }
    }
  }

  lemma LengthIsOneLine(s: string)
    requires OneLine(s)
    ensures OneLine(LengthSet(s).0) && OneLine(LengthSet(s).1)
  {
    RestIsOneLine(s, Spaces(s));
  }

  lemma OptionIsOneLine(s: string, head: string)
    requires OneLine(s)
    ensures OneLine(NamedOption(s, head).0) && OneLine(NamedOption(s, head).1)
  {
    if BeginsWith(s, head) {
      RestIsOneLine(s, |head|);
      var t := s[|head|..];
      RestIsOneLine(t, Word(t));
    }
  }

  lemma NullIsOneLine(s: string)
    requires OneLine(s)
    ensures OneLine(AllowNull(s).1)
  {
    StartsFromIsOneLine(s, "NOT NULL");
    StartsFromIsOneLine(StartsFrom(s, "NOT NULL").1, "NULL");
  }

  lemma QuotedIsOneLine(s: string)
    requires OneLine(s)
    ensures OneLine(QuotedStr(s).1) && (QuotedStr(s).0.Some? ==> OneLine(QuotedStr(s).0.value))
  {
  }

  lemma OnUpdateIsOneLine(s: string)
    requires OneLine(s)
    ensures OneLine(OnUpdateCurTs(s).1)
  {
  }

  lemma LiteralIsOneLine(s: string)
    requires OneLine(s)
    ensures OneLine(LiteralDefault(s).text) && OneLine(LiteralDefault(s).rest)
  {
    TrimmedIsOneLine(s);
    QuotedIsOneLine(Trimmed(s));
    TrimmedIsOneLine(QuotedStr(Trimmed(s)).1);
    OnUpdateIsOneLine(Trimmed(QuotedStr(Trimmed(s)).1));
  }

  lemma WordIsOneLine(s: string)
    requires OneLine(s)
    ensures OneLine(WordDefault(s).text) && OneLine(WordDefault(s).rest)
  {
    var isNull := StartsFrom(s, "NULL");
    StartsFromIsOneLine(s, "NULL");
    OnUpdateIsOneLine(isNull.1);
    var ts := FindCurTS(isNull.1);
    if ts.Some? {
      RestIsOneLine(isNull.1, ts.value);
      OnUpdateIsOneLine(isNull.1[ts.value..]);
    }
    RestIsOneLine(isNull.1, Word(isNull.1));
    OnUpdateIsOneLine(isNull.1[Word(isNull.1)..]);
  }

  lemma DefaultIsOneLine(s: string)
    requires OneLine(s)
    ensures OneLine(Default(s).text) && OneLine(Default(s).rest)
  {
    var inc := StartsFrom(s, "AUTO_INCREMENT");
    StartsFromIsOneLine(s, "AUTO_INCREMENT");
    var next := StartsFrom(inc.1, "DEFAULT nextval(");
    StartsFromIsOneLine(inc.1, "DEFAULT nextval(");
    var def := StartsFrom(next.1, "DEFAULT ");
    StartsFromIsOneLine(next.1, "DEFAULT ");
    LiteralIsOneLine(def.1);
    WordIsOneLine(def.1);
  }

  lemma CommentIsOneLine(s: string)
    requires OneLine(s)
    ensures OneLine(Comment(s))
  {
    StartsFromIsOneLine(s, "COMMENT");
    TrimmedIsOneLine(StartsFrom(s, "COMMENT").1);
    QuotedIsOneLine(Trimmed(StartsFrom(s, "COMMENT").1));
  }

  lemma AttributesAreOneLine(id: nat, name: string, dataType: DataType, s: string)
    requires OneLine(name) && OneLine(dataType.name) && OneLine(s)
    ensures IsOneLine(Attributes(id, name, dataType, s))
  {
    var len := LengthSet(s);
    LengthIsOneLine(s);
    var uns := StartsFrom(len.1, "UNSIGNED");
    StartsFromIsOneLine(len.1, "UNSIGNED");
    var zero := StartsFrom(uns.1, "ZEROFILL");
    StartsFromIsOneLine(uns.1, "ZEROFILL");
    TrimmedIsOneLine(zero.1);
    var charset := NamedOption(Trimmed(zero.1), "CHARACTER SET ");
    OptionIsOneLine(Trimmed(zero.1), "CHARACTER SET ");
    TrimmedIsOneLine(charset.1);
    var collation := NamedOption(Trimmed(charset.1), "COLLATE ");
    OptionIsOneLine(Trimmed(charset.1), "COLLATE ");
    TrimmedIsOneLine(collation.1);
    NullIsOneLine(Trimmed(collation.1));
    var nullable := AllowNull(Trimmed(collation.1));
    DefaultIsOneLine(nullable.1);
    CommentIsOneLine(Default(nullable.1).rest);
  }

  /** A column read from one line holds no line break anywhere. */
  lemma ParsedIsOneLine(line: string, id: nat, types: seq<DataType>, q: char)
    requires OneLine(line) && ParsedColumn(line, id, types, q).Some?
    ensures IsOneLine(ParsedColumn(line, id, types, q).value)
  {
    var name := Id(line, q);
    IdIsOneLine(line, q);
    TypeIsOneLine(name.1, types);
    var dataType := TypeByName(name.1, types);
    AttributesAreOneLine(id, name.0, dataType.0, dataType.1);
  }

  lemma {:induction false} CapturesAreOneLine(s: string, atStart: bool, q: char)
    requires q != LF
    ensures forall line | line in Captures(s, atStart, q) :: OneLine(line)
    decreases s
  {
    if s != [] {
      if atStart && Captured(s, q).Some? {
        var m := Captured(s, q).value;
        CapturesAreOneLine(s[m.1..], false, q);
        assert s[m.0..m.1] == [q] + s[m.0 + 1..][..m.1 - m.0 - 1];
      } else {
        CapturesAreOneLine(s[1..], s[0] == LF, q);
      }
    }
  }

  lemma {:induction false} AmongColumns(parsed: seq<Option<Column>>, i: nat, c: Column)
    requires i <= |parsed| && c in Columns(parsed, i)
    ensures exists k | i <= k < |parsed| :: parsed[k] == Some(c)
    decreases |parsed| - i
  {
    if !(parsed[i].Some? && parsed[i].value == c) {
      AmongColumns(parsed, i + 1, c);
    }
  }

  /** What every column has that is read from the lines of a statement. */
  predicate LooksRead(c: Column, q: char)
  {
    IsOneLine(c) && IsReadable(c.name, q)
  }

  lemma ReadLooksRead(lines: seq<string>, types: seq<DataType>, q: char, c: Column)
    requires c in Columns(ReadLines(lines, types, q), 0) && forall line | line in lines :: OneLine(line)
    ensures LooksRead(c, q)
  {
    AmongColumns(ReadLines(lines, types, q), 0, c);
    var k :| 0 <= k < |lines| && ReadLines(lines, types, q)[k] == Some(c);
    assert lines[k] in lines;
    ParsedIsOneLine(lines[k], 0, types, q);
    ParsedIsReadable(lines[k], 0, types, q);
  }

  // ---- a printed column is one line when its texts are ----

  lemma JoinedIsOneLine(a: string, b: string)
    requires OneLine(a) && OneLine(b)
    ensures OneLine(a + b)
  {
  }

  lemma {:induction false} PrefixedIsOneLine(s: string, p: char, c: char)
    requires OneLine(s) && p != LF
    ensures OneLine(Prefixed(s, p, c))
  {
    if s != [] {
      assert s[0] in s;
      PrefixedIsOneLine(s[1..], p, c);
      JoinedIsOneLine(if s[0] == c then [p, c] else [s[0]], Prefixed(s[1..], p, c));
    }
  }

  lemma EscapedIsOneLine(s: string)
    requires OneLine(s)
    ensures OneLine(MySQLEscape(s, false, true))
  {
    ReplacePrefixes(s, QUOTE, QUOTE);
    ReplacePrefixes(Prefixed(s, QUOTE, QUOTE), BACKSLASH, BACKSLASH);
    PrefixedIsOneLine(s, QUOTE, QUOTE);
    PrefixedIsOneLine(Prefixed(s, QUOTE, QUOTE), BACKSLASH, BACKSLASH);
  }

  /** The quote characters of identifiers. */
  predicate IsIdentQuote(q: char)
  {
    q == '`' || q == '"'
  }

  lemma NameIsOneLine(name: string, q: char)
    requires OneLine(name) && IsIdentQuote(q)
    ensures var id := QuoteIdentifier(name, true, NUL, q); OneLine(id) && |id| >= 2 && id[0] == q
  {
    ReplacePrefixes(name, q, q);
    PrefixedIsOneLine(name, q, q);
  }

  lemma DefaultTextIsOneLine(c: Column)
    requires IsOneLine(c)
    ensures OneLine(DefaultText(c))
  {
    EscapedIsOneLine(c.defaultText);
    var l := TimestampLength(c);
    assert OneLine(l) && OneLine(OnUpdateText(c)) && OneLine(LiteralText(c));
  }

  lemma PrintedIsOneLine(c: Column, q: char)
    requires IsOneLine(c) && IsIdentQuote(q)
    ensures OneLine(SqlCode(c, q)) && |SqlCode(c, q)| >= 2 && SqlCode(c, q)[0] == q && SqlCode(c, q)[1] != LF
  {
    NameIsOneLine(c.name, q);
    DefaultTextIsOneLine(c);
    EscapedIsOneLine(c.comment);
    EscapedIsOneLine(c.collation);
    assert OneLine(LengthText(c)) && OneLine(UnsignedText(c)) && OneLine(ZeroFillText(c)) && OneLine(NullText(c));
    assert OneLine(CommentText(c)) && OneLine(CollateText(c));
    var line := SqlCode(c, q);
    assert line[0] == QuoteIdentifier(c.name, true, NUL, q)[0] && line[1] in line;
  }

  // ---- a printed line is captured as it is ----

  lemma {:induction false} LineEndIs(line: string, rest: string)
    requires OneLine(line) && (rest == [] || rest[0] == LF)
    ensures LineEnd(line + rest) == |line|
    decreases line
  {
    if line == [] {
      NothingBefore(rest);
    } else {
      assert (line + rest)[1..] == line[1..] + rest;
      LineEndIs(line[1..], rest);
    }
  }

  lemma TwoSpaces(t: string)
    requires t != [] && !IsPatternSpace(t[0])
    ensures PatternSpaces("  " + t) == 2
  {
    var s := "  " + t;
    assert s[1..][1..] == t;
    assert PatternSpaces(s) == 1 + PatternSpaces(s[1..]);
    assert PatternSpaces(s[1..]) == 1 + PatternSpaces(t);
  }

  lemma {:induction false} RestOfLine(line: string, rest: string, q: char)
    requires OneLine(line)
    ensures Captures(line + ([LF] + rest), false, q) == Captures(rest, true, q)
    decreases line
  {
    var s := line + ([LF] + rest);
    if line == [] {
      assert s[1..] == rest;
    } else {
      assert s[1..] == line[1..] + ([LF] + rest);
      RestOfLine(line[1..], rest, q);
    }
  }

  /** A line that does not begin with white space is passed over. */
  lemma HeadIsPassed(line: string, rest: string, q: char)
    requires OneLine(line) && line != [] && !IsPatternSpace(line[0])
    ensures Captures(line + ([LF] + rest), true, q) == Captures(rest, true, q)
  {
    var s := line + ([LF] + rest);
    assert s[1..] == line[1..] + ([LF] + rest);
    RestOfLine(line[1..], rest, q);
  }

  lemma CapturedIs(line: string, t: string, rest: string, q: char)
    requires OneLine(line) && |line| >= 2 && line[0] == q && !IsPatternSpace(q) && t == line + rest
             && (rest == [] || rest[0] == LF)
    ensures Captured("  " + t, q) == Some((2, |line| + 2))
  {
    TwoSpaces(t);
    assert t[0] == line[0] && t[1] == line[1] && line[1] in line;
    assert ("  " + t)[3..] == line[1..] + rest;
    LineEndIs(line[1..], rest);
  }

  lemma LineIsCaptured(line: string, rest: string, q: char)
    requires OneLine(line) && |line| >= 2 && line[0] == q && !IsPatternSpace(q)
    ensures Captures("  " + (line + ([LF] + rest)), true, q) == [line] + Captures(rest, true, q)
  {
    var t := line + ([LF] + rest);
    var s := "  " + t;
    CapturedIs(line, t, [LF] + rest, q);
    CapturesFirst(s, q, line, [LF] + rest);
    NothingBefore([LF] + rest);
    RestOfLine([], rest, q);
  }

  lemma CapturesFirst(s: string, q: char, line: string, rest: string)
    requires s == "  " + (line + rest) && Captured(s, q) == Some((2, |line| + 2))
    ensures Captures(s, true, q) == [line] + Captures(rest, false, q)
  {
    assert s[2..|line| + 2] == line && s[|line| + 2..] == rest;
  }

  // ---- all columns of a table ----

  /** A column and what follows its definition on its line. */
  datatype Line = Line(column: Column, tail: string)

  /** The definitions of the lines from index i on, each on a line of its own, and the rest of
      the statement. */
  function ColumnText(lines: seq<Line>, i: nat, q: char, foot: string): string
    requires i <= |lines|
    decreases |lines| - i
  {
    if i == |lines| then foot
    else "  " + ((SqlCode(lines[i].column, q) + lines[i].tail) + ([LF] + ColumnText(lines, i + 1, q, foot)))
  }

  /** Printed columns without what cannot be printed, in a statement that has nothing else that
      looks like a column. */
  ghost predicate IsPrintableTable(lines: seq<Line>, types: seq<DataType>, q: char, head: string, foot: string)
  {
    && IsIdentQuote(q) && OneLine(head) && head != [] && !IsPatternSpace(head[0]) && Captures(foot, true, q) == []
    && forall line | line in lines :: IsPrintable(line.column, types) && IsLineEnd(line.tail)
  }

  function Definitions(lines: seq<Line>, i: nat, q: char): seq<string>
    requires i <= |lines|
    decreases |lines| - i
  {
    if i == |lines| then [] else [SqlCode(lines[i].column, q) + lines[i].tail] + Definitions(lines, i + 1, q)
  }

  lemma {:induction false} DefinitionsAreCaptured(lines: seq<Line>, i: nat, q: char, foot: string)
    requires i <= |lines| && IsIdentQuote(q) && Captures(foot, true, q) == []
    requires forall line | line in lines :: IsOneLine(line.column) && IsLineEnd(line.tail)
    ensures Captures(ColumnText(lines, i, q, foot), true, q) == Definitions(lines, i, q)
    decreases |lines| - i
  {
    if i < |lines| {
      assert lines[i] in lines;
      DefinitionsAreCaptured(lines, i + 1, q, foot);
      PrintedIsOneLine(lines[i].column, q);
      JoinedIsOneLine(SqlCode(lines[i].column, q), lines[i].tail);
      LineIsCaptured(SqlCode(lines[i].column, q) + lines[i].tail, ColumnText(lines, i + 1, q, foot), q);
    }
  }

  function WithoutIds(lines: seq<Line>): seq<Column>
  {
    seq(|lines|, k requires 0 <= k < |lines| => lines[k].column.(id := 0))
  }

  lemma PrintedWithoutId(c: Column, q: char)
    ensures SqlCode(c.(id := 0), q) == SqlCode(c, q)
  {
    var d := c.(id := 0);
    assert LengthText(d) == LengthText(c) && UnsignedText(d) == UnsignedText(c) && ZeroFillText(d) == ZeroFillText(c);
    assert NullText(d) == NullText(c) && CommentText(d) == CommentText(c) && CollateText(d) == CollateText(c);
    assert TimestampLength(d) == TimestampLength(c) && LiteralText(d) == LiteralText(c);
    assert OnUpdateText(d) == OnUpdateText(c) && DefaultText(d) == DefaultText(c);
  }

  lemma PrintableWithoutId(c: Column, types: seq<DataType>, q: char)
    requires IsPrintable(c, types)
    ensures IsPrintable(c.(id := 0), types)
  {
  }

  lemma RecoverableWithoutId(c: Column)
    ensures IsRecoverable(c.(id := 0)) == IsRecoverable(c)
  {
  }

  /** What is read from a printed line. */
  lemma ParsedLine(line: Line, types: seq<DataType>, q: char) returns (parsed: Column)
    requires IsReadable(line.column.name, q) && IsPrintable(line.column, types) && IsLineEnd(line.tail)
    ensures ParsedColumn(SqlCode(line.column, q) + line.tail, 0, types, q) == Some(parsed)
    ensures parsed == line.column.(id := 0) <==> IsRecoverable(line.column)
  {
    var c := line.column.(id := 0);
    PrintedWithoutId(line.column, q);
    PrintableWithoutId(line.column, types, q);
    RecoverableWithoutId(line.column);
    LineIsParsed(c, line.tail, types, q);
    DefinitionRoundTrips(c, line.tail, types, q);
    parsed := ParsedColumn(SqlCode(c, q) + line.tail, 0, types, q).value;
  }

  lemma LineIsParsed(c: Column, tail: string, types: seq<DataType>, q: char)
    requires IsReadable(c.name, q) && IsPrintable(c, types) && IsLineEnd(tail)
    ensures ParsedColumn(SqlCode(c, q) + tail, c.id, types, q).Some?
  {
    LineParses(c, tail, types, q);
  }

  lemma {:induction false} DefinitionAt(lines: seq<Line>, i: nat, q: char, k: nat)
    requires i <= k < |lines|
    ensures |Definitions(lines, i, q)| == |lines| - i
    ensures Definitions(lines, i, q)[k - i] == SqlCode(lines[k].column, q) + lines[k].tail
    decreases |lines| - i
  {
    if i < k {
      DefinitionAt(lines, i + 1, q, k);
    } else {
      DefinitionsSize(lines, i + 1, q);
    }
  }

  lemma {:induction false} DefinitionsSize(lines: seq<Line>, i: nat, q: char)
    requires i <= |lines|
    ensures |Definitions(lines, i, q)| == |lines| - i
    decreases |lines| - i
  {
    if i < |lines| {
      DefinitionsSize(lines, i + 1, q);
      OneMore(SqlCode(lines[i].column, q) + lines[i].tail, Definitions(lines, i + 1, q));
    }
  }

  lemma OneMore(x: string, rest: seq<string>)
    ensures |[x] + rest| == |rest| + 1
  {
  }

  lemma {:induction false} ColumnsIff(parsed: seq<Option<Column>>, i: nat, columns: seq<Column>)
    requires i <= |parsed| && |columns| == |parsed| - i && forall k | i <= k < |parsed| :: parsed[k].Some?
    ensures Columns(parsed, i) == columns <==> forall k | 0 <= k < |columns| :: columns[k] == parsed[i + k].value
    decreases |parsed| - i
  {
    if i < |parsed| {
      var rest := columns[1..];
      ColumnsIff(parsed, i + 1, rest);
      assert columns == [columns[0]] + rest;
      SameFirst(parsed[i].value, Columns(parsed, i + 1), columns[0], rest);
      OneLater(parsed, i, columns, rest);
    }
  }

  lemma OneLater(parsed: seq<Option<Column>>, i: nat, columns: seq<Column>, rest: seq<Column>)
    requires i < |parsed| && |columns| == |parsed| - i && columns == [columns[0]] + rest
    requires forall k | i <= k < |parsed| :: parsed[k].Some?
    ensures (forall k | 0 <= k < |columns| :: columns[k] == parsed[i + k].value)
       <==> columns[0] == parsed[i].value && forall k | 0 <= k < |rest| :: rest[k] == parsed[i + 1 + k].value
  {
    if forall k | 0 <= k < |columns| :: columns[k] == parsed[i + k].value {
      assert columns[0] == parsed[i + 0].value;
      forall k | 0 <= k < |rest|
        ensures rest[k] == parsed[i + 1 + k].value
      {
        assert rest[k] == columns[k + 1] && i + (k + 1) == i + 1 + k;
      }
    }
    if columns[0] == parsed[i].value && forall k | 0 <= k < |rest| :: rest[k] == parsed[i + 1 + k].value {
      forall k | 0 <= k < |columns|
        ensures columns[k] == parsed[i + k].value
      {
        if k > 0 {
          assert columns[k] == rest[k - 1] && i + 1 + (k - 1) == i + k;
        }
      }
    }
  }

  lemma SameFirst(x: Column, xs: seq<Column>, y: Column, ys: seq<Column>)
    ensures [x] + xs == [y] + ys <==> x == y && xs == ys
  {
    assert ([x] + xs)[0] == x && ([y] + ys)[0] == y;
    assert ([x] + xs)[1..] == xs && ([y] + ys)[1..] == ys;
  }

  lemma ReadAt(lines: seq<string>, k: nat, types: seq<DataType>, q: char, line: string, x: Column)
    requires k < |lines| && lines[k] == line && ParsedColumn(line, 0, types, q) == Some(x)
    ensures |ReadLines(lines, types, q)| == |lines| && ReadLines(lines, types, q)[k] == Some(x)
  {
  }

  /** Line k was read as a column, which is the printed one exactly when that is recoverable. */
  ghost predicate IsRead(parsed: seq<Option<Column>>, lines: seq<Line>, k: nat)
    requires k < |lines|
  {
    |parsed| == |lines| && parsed[k].Some?
      && (parsed[k].value == WithoutIds(lines)[k] <==> IsRecoverable(lines[k].column))
  }

  lemma DefinitionRead(lines: seq<Line>, k: nat, types: seq<DataType>, q: char)
    requires k < |lines|
    requires forall line | line in lines :: IsPrintable(line.column, types) && IsLineEnd(line.tail)
    requires forall line | line in lines :: IsReadable(line.column.name, q)
    ensures IsRead(ReadLines(Definitions(lines, 0, q), types, q), lines, k)
  {
    assert lines[k] in lines;
    DefinitionAt(lines, 0, q, k);
    var x := ParsedLine(lines[k], types, q);
    ReadAt(Definitions(lines, 0, q), k, types, q, SqlCode(lines[k].column, q) + lines[k].tail, x);
  }

  lemma AllReadIff(lines: seq<Line>, types: seq<DataType>, q: char)
    requires forall line | line in lines :: IsPrintable(line.column, types) && IsLineEnd(line.tail)
    requires forall line | line in lines :: IsReadable(line.column.name, q)
    ensures Columns(ReadLines(Definitions(lines, 0, q), types, q), 0) == WithoutIds(lines)
       <==> forall k | 0 <= k < |lines| :: IsRecoverable(lines[k].column)
  {
    DefinitionsSize(lines, 0, q);
    forall k | 0 <= k < |lines|
      ensures IsRead(ReadLines(Definitions(lines, 0, q), types, q), lines, k)
    {
      DefinitionRead(lines, k, types, q);
    }
    AsReadIff(ReadLines(Definitions(lines, 0, q), types, q), lines);
  }

  lemma AsReadIff(parsed: seq<Option<Column>>, lines: seq<Line>)
    requires |parsed| == |lines| && forall k | 0 <= k < |lines| :: IsRead(parsed, lines, k)
    ensures Columns(parsed, 0) == WithoutIds(lines) <==> forall k | 0 <= k < |lines| :: IsRecoverable(lines[k].column)
  {
    assert forall k | 0 <= k < |lines| :: IsRead(parsed, lines, k) && parsed[k].Some?;
    ColumnsIff(parsed, 0, WithoutIds(lines));
    assert forall k | 0 <= k < |lines| :: WithoutIds(lines)[k] == parsed[k].value <==> IsRecoverable(lines[k].column);
    assert forall k | 0 <= k < |lines| :: parsed[0 + k] == parsed[k];
  }

  /** Parsing a statement that defines printed columns, a line each, gives exactly those columns
      in their order if and only if each of them is recoverable, holds no line break and has a
      name without the quote. */
  lemma TableRoundTrips(lines: seq<Line>, types: seq<DataType>, q: char, head: string, foot: string)
    requires IsPrintableTable(lines, types, q, head, foot)
    ensures ColumnsIn(head + ([LF] + ColumnText(lines, 0, q, foot)), types, q) == WithoutIds(lines)
       <==> forall k | 0 <= k < |lines| :: IsRecoverable(lines[k].column) && LooksRead(lines[k].column, q)
  {
    var text := ColumnText(lines, 0, q, foot);
    HeadIsPassed(head, text, q);
    if forall line | line in lines :: LooksRead(line.column, q) {
      DefinitionsAreCaptured(lines, 0, q, foot);
      AllReadIff(lines, types, q);
      assert forall k | 0 <= k < |lines| :: lines[k] in lines;
    } else {
      var line :| line in lines && !LooksRead(line.column, q);
      CapturesAreOneLine(text, true, q);
      var k :| 0 <= k < |lines| && lines[k] == line;
      assert WithoutIds(lines)[k] in WithoutIds(lines);
      if ColumnsIn(head + ([LF] + text), types, q) == WithoutIds(lines) {
        ReadLooksRead(Captures(text, true, q), types, q, WithoutIds(lines)[k]);
        assert false;
      }
    }
  }

  /** The same for a single column, printed on a line of the statement. */
  lemma ColumnRoundTrips(c: Column, tail: string, types: seq<DataType>, q: char, head: string, foot: string)
    requires IsPrintable(c, types) && IsLineEnd(tail) && IsIdentQuote(q)
    requires OneLine(head) && head != [] && !IsPatternSpace(head[0]) && Captures(foot, true, q) == []
    ensures ColumnsIn(head + ([LF] + ("  " + ((SqlCode(c, q) + tail) + ([LF] + foot)))), types, q) == [c.(id := 0)]
       <==> IsRecoverable(c) && LooksRead(c, q)
  {
    var lines := [Line(c, tail)];
    TableRoundTrips(lines, types, q, head, foot);
    assert ColumnText(lines, 1, q, foot) == foot;
    assert WithoutIds(lines) == [c.(id := 0)];
    assert lines[0].column == c;
  }
}
