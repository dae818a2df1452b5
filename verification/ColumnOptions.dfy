/** Column definitions as the server prints them, with a character set and a collation between the
    type and NULL.
 */
module ColumnOptions {
  import opened QtStrings
  import opened Schema
  import opened Escaping
  import opened Identifiers
  import opened Patterns
  import opened ColumnSql
  import opened TableStructureParser
  import opened QuotedTexts
  import opened ColumnRoundTrip
  import opened ColumnDefaults

  predicate IsWordText(s: string)
  {
    forall k | 0 <= k < |s| :: IsWordChar(s[k])
  }

  /** What separates an option from the text behind it. */
  predicate IsGap(gap: string, rest: string)
  {
    && (forall k | 0 <= k < |gap| :: gap[k] == ' ')
    && (rest == [] ==> gap == [])
    && (gap == [] && rest != [] ==> !IsWordChar(rest[0]))
  }

  function OptionText(head: string, word: string, behind: string): string
  {
    head + (word + behind)
  }

  /** The options that are not empty, and a text behind them. */
  function WithOptions(charset: string, collation: string, gap: string, rest: string): string
  {
    var collated := if collation == [] then rest else OptionText("COLLATE ", collation, gap + rest);
    if charset == [] then collated
    else OptionText("CHARACTER SET ", charset, (if collation == [] then gap else " ") + collated)
  }

  /** A text that has neither option in front, nor a flag. */
  ghost predicate HasNoOption(rest: string)
  {
    && EndsWell(rest) && (rest != [] ==> !IsSpace(rest[0]))
    && !BeginsWith(rest, "CHARACTER SET ") && !BeginsWith(rest, "COLLATE ")
    && !BeginsWith(rest, "UNSIGNED") && !BeginsWith(rest, "ZEROFILL")
  }

  lemma {:induction false} WordIs(w: string, behind: string)
    requires IsWordText(w) && (behind == [] || !IsWordChar(behind[0]))
    ensures Word(w + behind) == |w|
  {
    if w == [] {
      NothingBefore(behind);
    } else {
      assert (w + behind)[1..] == w[1..] + behind;
      WordIs(w[1..], behind);
    }
  }

  /** An option is read with its word, and the spaces behind it are passed over. */
  lemma OptionIsRead(head: string, word: string, gap: string, rest: string)
    requires word != [] && IsWordText(word) && IsGap(gap, rest) && (rest != [] ==> !IsSpace(rest[0]))
    ensures NamedOption(OptionText(head, word, gap + rest), head) == (word, rest)
  {
    var behind := gap + rest;
    var t := word + behind;
    var s := OptionText(head, word, behind);
    BeginsWithSelf(head, t);
    assert s[|head|..] == t;
    if gap == [] {
      NothingBefore(rest);
    }
    WordIs(word, behind);
    SpacesThen(gap, rest);
    assert t[..|word|] == word && t[|word|..] == behind;
    assert t[|word| + |gap|..] == rest;
  }

  lemma OptionEndsWell(head: string, word: string, gap: string, rest: string)
    requires word != [] && IsWordText(word) && IsGap(gap, rest) && EndsWell(rest)
    ensures EndsWell(OptionText(head, word, gap + rest))
  {
    assert IsWordChar(word[|word| - 1]);
    EndsWellPlus(gap, rest);
    EndsWellPlus(word, gap + rest);
    EndsWellPlus(head, word + (gap + rest));
  }

  lemma OptionBegins(head: string, word: string, behind: string, c: char, other: string)
    requires head != [] && head[0] == c && other != [] && ToLowerChar(other[0]) != ToLowerChar(c)
    ensures OptionText(head, word, behind)[0] == c && !BeginsWith(OptionText(head, word, behind), other)
  {
  }

  /** The text at the options is not taken for a flag, and both options are read from it. */
  lemma OptionsAreRead(charset: string, collation: string, gap: string, rest: string)
    requires IsWordText(charset) && IsWordText(collation) && IsGap(gap, rest) && HasNoOption(rest)
    ensures var s := WithOptions(charset, collation, gap, rest);
            var first := NamedOption(s, "CHARACTER SET ");
            && EndsWell(s) && (s != [] ==> !IsSpace(s[0]))
            && !BeginsWith(s, "UNSIGNED") && !BeginsWith(s, "ZEROFILL")
            && first.0 == charset && Trimmed(first.1) == first.1
            && NamedOption(first.1, "COLLATE ") == (collation, rest) && Trimmed(rest) == rest
  {
    var collated := if collation == [] then rest else OptionText("COLLATE ", collation, gap + rest);
    TrimmedIs(rest);
    CollationIsRead(collation, gap, rest, collated);
    if charset != [] {
      CharsetIsAhead(charset, if collation == [] then gap else " ", collated);
    }
  }

  lemma CharsetIsAhead(charset: string, gap: string, rest: string)
    requires charset != [] && IsWordText(charset) && IsGap(gap, rest)
    requires EndsWell(rest) && (rest != [] ==> !IsSpace(rest[0]))
    ensures var s := OptionText("CHARACTER SET ", charset, gap + rest);
            && EndsWell(s) && s != [] && !IsSpace(s[0])
            && !BeginsWith(s, "UNSIGNED") && !BeginsWith(s, "ZEROFILL")
            && NamedOption(s, "CHARACTER SET ") == (charset, rest)
  {
    OptionIsRead("CHARACTER SET ", charset, gap, rest);
    OptionEndsWell("CHARACTER SET ", charset, gap, rest);
    OptionBegins("CHARACTER SET ", charset, gap + rest, 'C', "UNSIGNED");
    OptionBegins("CHARACTER SET ", charset, gap + rest, 'C', "ZEROFILL");
  }

  lemma CollationIsRead(collation: string, gap: string, rest: string, collated: string)
    requires IsWordText(collation) && IsGap(gap, rest) && HasNoOption(rest)
    requires collated == if collation == [] then rest else OptionText("COLLATE ", collation, gap + rest)
    ensures EndsWell(collated) && (collated != [] ==> !IsSpace(collated[0])) && (collated == [] ==> rest == [])
    ensures !BeginsWith(collated, "UNSIGNED") && !BeginsWith(collated, "ZEROFILL")
    ensures NamedOption(collated, "CHARACTER SET ") == ([], collated) && Trimmed(collated) == collated
    ensures NamedOption(collated, "COLLATE ") == (collation, rest)
  {
    if collation == [] {
      NotOption(rest, "CHARACTER SET ");
      NotOption(rest, "COLLATE ");
    } else {
      OptionIsRead("COLLATE ", collation, gap, rest);
      OptionEndsWell("COLLATE ", collation, gap, rest);
      OptionBegins("COLLATE ", collation, gap + rest, 'C', "UNSIGNED");
      OptionBegins("COLLATE ", collation, gap + rest, 'C', "ZEROFILL");
      CollationIsNoCharset(collation, gap + rest);
      NotOption(collated, "CHARACTER SET ");
    }
    TrimmedIs(collated);
  }

  lemma NotOption(t: string, head: string)
    requires !BeginsWith(t, head)
    ensures NamedOption(t, head) == ([], t)
  {
  }

  lemma CollationIsNoCharset(collation: string, behind: string)
    ensures !BeginsWith(OptionText("COLLATE ", collation, behind), "CHARACTER SET ")
  {
    var s, head := OptionText("COLLATE ", collation, behind), "CHARACTER SET ";
    assert s[1] == 'O' && head[1] == 'H';
    assert ToLowerChar(s[1]) == 'o' && ToLowerChar(head[1]) == 'h';
  }

  // ---- behind the flags of a column ----

  function WithFlags(c: Column, t: string): string
  {
    var zeroFilled := if PrintsZeroFill(c) then "ZEROFILL" + (" " + t) else t;
    if PrintsUnsigned(c) then "UNSIGNED" + (" " + zeroFilled) else zeroFilled
  }

  lemma AnotherWord(t: string, needle: string)
    requires (t != [] ==> !IsSpace(t[0])) && !BeginsWith(t, needle)
    ensures StartsFrom(t, needle) == (false, t) && (t != [] ==> StartsFrom(" " + t, needle) == (false, t))
  {
    NoSpaces(t);
    OneSpace(t);
  }

  lemma FlagsAreRead(c: Column, s: string, t: string)
    requires t != [] && EndsWell(t) && !IsSpace(t[0]) && !BeginsWith(t, "UNSIGNED") && !BeginsWith(t, "ZEROFILL")
    requires s == WithFlags(c, t) || s == " " + WithFlags(c, t)
    ensures var uns := StartsFrom(s, "UNSIGNED");
            var zero := StartsFrom(uns.1, "ZEROFILL");
            uns.0 == PrintsUnsigned(c) && zero.0 == PrintsZeroFill(c) && Trimmed(zero.1) == t
  {
    var z := if PrintsZeroFill(c) then "ZEROFILL" + (" " + t) else t;
    assert z != [] && !IsSpace(z[0]) && !BeginsWith(z, "UNSIGNED");
    TrimmedIs(t);
    if PrintsUnsigned(c) {
      WordFound("UNSIGNED", " " + z);
    } else {
      AnotherWord(z, "UNSIGNED");
    }
    if PrintsZeroFill(c) {
      WordFound("ZEROFILL", " " + t);
    } else {
      AnotherWord(t, "ZEROFILL");
    }
  }

  lemma FlagsBegin(c: Column, t: string)
    requires t != [] && !IsSpace(t[0]) && t[0] != '('
    ensures var s := WithFlags(c, t); s != [] && !IsSpace(s[0]) && s[0] != '('
  {
  }

  /** What is read of a column up to NULL, and the text there. */
  lemma BeforeNull(c: Column, t: string)
    requires IsLengthSet(c.lengthSet, false) && t != [] && t[0] != '('
    requires EndsWell(t) && !IsSpace(t[0]) && !BeginsWith(t, "UNSIGNED") && !BeginsWith(t, "ZEROFILL")
    ensures var len := LengthSet(LengthText(c) + (" " + WithFlags(c, t)));
            var uns := StartsFrom(len.1, "UNSIGNED");
            var zero := StartsFrom(uns.1, "ZEROFILL");
            && len.0 == PrintedLength(c) && uns.0 == PrintsUnsigned(c) && zero.0 == PrintsZeroFill(c)
            && Trimmed(zero.1) == t
  {
    var s := WithFlags(c, t);
    FlagsBegin(c, t);
    LengthParses(c, s);
    FlagsAreRead(c, if PrintedLength(c) == [] then s else " " + s, t);
  }

  /** With a character set, a collation or both behind the flags, these are read, and everything
      else as without them. */
  lemma OptionsParse(c: Column, charset: string, collation: string, gap: string, rest: string)
    requires IsLengthSet(c.lengthSet, false) && rest != [] && rest[0] != '('
    requires IsWordText(charset) && IsWordText(collation) && IsGap(gap, rest) && HasNoOption(rest)
    ensures var plain := Attributes(c.id, c.name, c.dataType, LengthText(c) + (" " + WithFlags(c, rest)));
            && plain.charset == [] && plain.collation == []
            && Attributes(c.id, c.name, c.dataType,
                          LengthText(c) + (" " + WithFlags(c, WithOptions(charset, collation, gap, rest))))
               == plain.(charset := charset, collation := collation)
  {
    var s := WithOptions(charset, collation, gap, rest);
    OptionsAreRead(charset, collation, gap, rest);
    OptionsAreRead([], [], gap, rest);
    assert s != [] && s[0] != '(';
    BeforeNull(c, s);
    BeforeNull(c, rest);
  }

  // ---- a whole definition ----

  function WithoutOptions(c: Column): Column
  {
    c.(charset := [], collation := [])
  }

  /** The definition of a column as the server prints it, up to a text at the end. */
  function ShowCode(c: Column, tail: string, q: char): string
  {
    var rest := NullWords(c, DefaultText(c) + (CommentText(c) + tail));
    QuoteIdentifier(c.name, true, NUL, q)
    + (" " + (c.dataType.name + (LengthText(c) + (" " + WithFlags(c, WithOptions(c.charset, c.collation, " ", rest))))))
  }
  lemma DefinitionIsParsed(name: string, id: nat, dataType: DataType, attributes: string, types: seq<DataType>, q: char)
    requires IsReadable(name, q) && dataType.name != [] && !IsSpace(dataType.name[0])
    requires exists i | 0 <= i < |types| :: types[i] == dataType && IsFirstMatch(types, i)
    requires attributes != [] && (attributes[0] == ' ' || attributes[0] == '(')
    ensures ParsedColumn(QuoteIdentifier(name, true, NUL, q) + (" " + (dataType.name + attributes)), id, types, q)
         == Some(Attributes(id, name, dataType, attributes))
  {
    NameParses(name, " " + (dataType.name + attributes), q);
    TypeParses(types, dataType, attributes);
  }

  lemma NullHasNoOption(c: Column, rest: string)
    requires EndsWell(rest)
    ensures var n := NullWords(c, rest); n != [] && n[0] == 'N' && HasNoOption(n)
  {
    EndsWellPlus(if c.allowNull then "NULL" else "NOT NULL", rest);
  }

  /** Without options the server prints what the table editor does. */
  lemma PlainIsShown(c: Column, tail: string, q: char)
    requires c.charset == [] && c.collation == []
    ensures ShowCode(c, tail, q) == SqlCode(c, q) + tail
  {
    SqlShape(c, tail, q);
    NothingBefore(tail);
  }

  /** The definition of a column as the server prints it, with any character set and collation,
      gives the column back if and only if it does so without them. */
  lemma ShownRoundTrips(c: Column, tail: string, types: seq<DataType>, q: char)
    requires IsPrintable(WithoutOptions(c), types) && IsLineEnd(tail)
    requires IsWordText(c.charset) && IsWordText(c.collation)
    ensures ParsedColumn(ShowCode(c, tail, q), c.id, types, q) == Some(c)
       <==> IsReadable(c.name, q) && IsRecoverable(WithoutOptions(c))
  {
    var d := WithoutOptions(c);
    if !IsReadable(c.name, q) {
      ParsedIsReadable(ShowCode(c, tail, q), c.id, types, q);
      return;
    }
    DefinitionRoundTrips(d, tail, types, q);
    PlainIsShown(d, tail, q);
    ShownIsParsed(c, tail, types, q);
  }

  lemma ShownIsParsed(c: Column, tail: string, types: seq<DataType>, q: char)
    requires IsReadable(c.name, q) && IsPrintable(WithoutOptions(c), types) && IsLineEnd(tail)
    requires IsWordText(c.charset) && IsWordText(c.collation)
    ensures var plain := ParsedColumn(ShowCode(WithoutOptions(c), tail, q), c.id, types, q);
            && plain.Some? && plain.value.charset == [] && plain.value.collation == []
            && ParsedColumn(ShowCode(c, tail, q), c.id, types, q)
               == Some(plain.value.(charset := c.charset, collation := c.collation))
  {
    var d := WithoutOptions(c);
    var behind := DefaultText(c) + (CommentText(c) + tail);
    var rest := NullWords(c, behind);
    SameText(c);
    RestEndsWell(d, tail);
    NothingBefore(tail);
    NullHasNoOption(c, behind);
    OptionsParse(c, c.charset, c.collation, " ", rest);
    OptionsParse(c, [], [], " ", rest);
    DefinitionIsParsed(c.name, c.id, c.dataType, LengthText(c) + (" " + WithFlags(c, rest)), types, q);
    DefinitionIsParsed(c.name, c.id, c.dataType,
                       LengthText(c) + (" " + WithFlags(c, WithOptions(c.charset, c.collation, " ", rest))), types, q);
  }

  lemma SameText(c: Column)
    ensures var d := WithoutOptions(c);
            && LengthText(d) == LengthText(c) && DefaultText(d) == DefaultText(c) && CommentText(d) == CommentText(c)
            && CollateText(d) == [] && PrintsUnsigned(d) == PrintsUnsigned(c) && PrintsZeroFill(d) == PrintsZeroFill(c)
  {
    var d := WithoutOptions(c);
    assert TimestampLength(d) == TimestampLength(c) && LiteralText(d) == LiteralText(c);
    assert OnUpdateText(d) == OnUpdateText(c);
  }

  // ---- a default that is a plain word ----

  lemma NextvalParses(x: string)
    requires BeginsWith(x, "nextval(")
    ensures Default(" " + (DEFAULT + x)).defaultType == AutoInc
  {
    var t := DEFAULT + x;
    assert "DEFAULT nextval(" == DEFAULT + "nextval(";
    assert BeginsWith(t, "DEFAULT nextval(");
    OtherWord(t, "AUTO_INCREMENT");
    NoSpaces(t);
  }

  lemma WordStands(w: string, behind: string)
    requires w != [] && IsWordText(w)
    requires behind != [] ==> !IsWordChar(behind[0]) && behind[0] != QUOTE
    ensures var x := w + behind; !IsLiteral(x) && Spaces(x) == 0 && x[..Word(x)] == w && x[Word(x)..] == behind
  {
    var x := w + behind;
    assert x[0] == w[0] && (|w| > 1 ==> x[1] == w[1]) && (|w| == 1 && behind != [] ==> x[1] == behind[0]);
    WordIs(w, behind);
  }

  lemma WordIsTaken(x: string, w: string, behind: string)
    requires x != [] && Spaces(x) == 0 && w != [] && x[..Word(x)] == w && x[Word(x)..] == behind
    ensures WordDefault(x) == Found(TextDefault, w, behind)
       <==> !BeginsWith(x, "NULL") && FindCurTS(x).None? && FindOnUpdate(behind).None?
  {
    assert x[0..] == x;
  }

  /** A word such as a number is taken as the default if and only if no other form of a default is
      seen in it. The time is searched for in all of the text that follows. */
  lemma WordDefaultIff(w: string, behind: string)
    requires w != [] && IsWordText(w)
    requires behind != [] ==> !IsWordChar(behind[0]) && behind[0] != QUOTE
    ensures var x := w + behind;
            Default(" " + (DEFAULT + x)) == Found(TextDefault, w, behind)
            <==> !BeginsWith(x, "nextval(") && !BeginsWith(x, "NULL") && FindCurTS(x).None?
                 && FindOnUpdate(behind).None?
  {
    var x := w + behind;
    if BeginsWith(x, "nextval(") {
      NextvalParses(x);
    } else {
      DefaultParses(x);
      WordStands(w, behind);
      WordIsTaken(x, w, behind);
    }
  }

  /** Where no word begins, nothing is taken as a default, and only DEFAULT is passed over. */
  lemma NoWordNoDefault(x: string)
    requires x == [] || (!IsWordChar(x[0]) && !IsSpace(x[0]))
    requires !IsLiteral(x) && FindCurTS(x).None?
    ensures Default(" " + (DEFAULT + x)) == Found(NoDefault, [], x)
  {
    assert !BeginsWith(x, "nextval(") && !BeginsWith(x, "NULL");
    DefaultParses(x);
    NoSpaces(x);
  }

  /** A text in quotes and parentheses is taken without them; what follows its last quote is left. */
  lemma ParenthesizedIsRead(text: string, y: string)
    requires IsPlain(text) && EndsWell(y) && (y == [] || y[0] != QUOTE)
    ensures var onUpdate := OnUpdateCurTs(Trimmed(y));
            Default(" " + (DEFAULT + ("(" + Quoted(text, y))))
            == Found(if onUpdate.0 then TextUpdateTS else TextDefault, text, onUpdate.1)
  {
    var x := "(" + Quoted(text, y);
    QuotedEndsWell(text, y);
    EndsWellPlus("(", Quoted(text, y));
    assert x[0] == '(' && x[1] == QUOTE;
    TrimmedIs(x);
    LiteralFound(x);
    PlainIsMatched("(", text, y);
  }
}
