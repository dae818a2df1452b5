/** Parsing a printed column definition gives the column back. */
module ColumnRoundTrip {
  import opened QtStrings
  import opened Schema
  import opened Escaping
  import opened Identifiers
  import opened Patterns
  import opened ColumnSql
  import opened TableStructureParser
  import opened QuotedTexts
  import opened OnUpdatePattern

  // ---- what a printed column is assumed to be ----

  /** No parenthesis closes outside of quotes, and quotes are closed at the end. */
  predicate IsLengthSet(s: string, inLiteral: bool)
  {
    if s == [] then !inLiteral
    else (inLiteral || s[0] != ')') && IsLengthSet(s[1..], if s[0] == QUOTE then !inLiteral else inLiteral)
  }

  /** No type listed before this one, the longer names being first, would be taken for it. */
  predicate IsFirstMatch(types: seq<DataType>, i: nat)
    requires i < |types|
  {
    var name := types[i].name;
    forall k | 0 <= k < i ::
      var other := types[k].name;
      |other| >= |name| && (BeginsWith(other, name)
        ==> |other| > |name| && other[|name|] != ' ' && other[|name|] != '(')
  }

  predicate IsTimestamp(t: DefaultType)
  {
    t == NullUpdateTS || t == CurTS || t == CurTSUpdateTS || t == TextUpdateTS
  }

  /** A column whose definition can be printed: the type is one of the list, parentheses match
      in the length or set, which is a number behind a time stamp. */
  ghost predicate IsPrintable(c: Column, types: seq<DataType>)
  {
    && c.dataType.name != [] && !IsSpace(c.dataType.name[0])
    && (exists i | 0 <= i < |types| :: types[i] == c.dataType && IsFirstMatch(types, i))
    && IsLengthSet(c.lengthSet, false)
    && (IsTimestamp(c.defaultType) ==> forall x | x in c.lengthSet :: IsDigit(x))
  }

  /** A name that is read back: there is one, and it does not hold the quote. */
  predicate IsReadable(name: string, q: char)
  {
    name != [] && q !in name
  }

  // What the type lets the printer write.
  function PrintedLength(c: Column): string
  {
    if c.dataType.hasLength then c.lengthSet else []
  }

  predicate PrintsUnsigned(c: Column)
  {
    c.dataType.isNumeric && c.isUnsigned
  }

  predicate PrintsZeroFill(c: Column)
  {
    c.dataType.isNumeric && c.zeroFill
  }

  // ---- pieces at the front of a text ----

  lemma BeginsWithSelf(p: string, rest: string)
    ensures BeginsWith(p + rest, p) && (p + rest)[|p|..] == rest
  {
  }

  lemma NoSpaces(t: string)
    requires t == [] || !IsSpace(t[0])
    ensures Spaces(t) == 0 && t[Spaces(t)..] == t
  {
  }

  lemma OneSpace(t: string)
    requires t == [] || !IsSpace(t[0])
    ensures Spaces(" " + t) == 1 && (" " + t)[1..] == t
  {
    assert (" " + t)[1..] == t;
  }

  /** The word is there, with or without a space in front. */
  lemma WordFound(needle: string, rest: string)
    requires needle != [] && !IsSpace(needle[0])
    ensures StartsFrom(" " + (needle + rest), needle) == (true, rest)
    ensures StartsFrom(needle + rest, needle) == (true, rest)
  {
    OneSpace(needle + rest);
    NoSpaces(needle + rest);
    BeginsWithSelf(needle, rest);
  }

  /** Another word is there, or none. */
  lemma OtherWord(t: string, needle: string)
    requires t == [] || !IsSpace(t[0])
    requires needle != [] && (t == [] || ToLowerChar(t[0]) != ToLowerChar(needle[0]))
    ensures StartsFrom(" " + t, needle) == (false, t)
    ensures StartsFrom(t, needle) == (false, t)
  {
    OneSpace(t);
    NoSpaces(t);
  }

  /** A text of which no part is white space at either end. */
  ghost predicate EndsWell(s: string)
  {
    s == [] || !IsSpace(s[|s| - 1])
  }

  lemma EndsWellPlus(a: string, b: string)
    requires EndsWell(b) && (b == [] ==> EndsWell(a))
    ensures EndsWell(a + b)
  {
    if b == [] {
      assert a + b == a;
    } else {
      assert (a + b)[|a + b| - 1] == b[|b| - 1];
    }
  }

  lemma TrimmedIs(t: string)
    requires EndsWell(t) && (t == [] || !IsSpace(t[0]))
    ensures Trimmed(t) == t && Trimmed(" " + t) == t
  {
    if t != [] {
      TrimmedFixpoint(t);
      var s := " " + t;
      assert SkipSpaces(s, 1, |s|) == 1 && s[1] == t[0];
      assert SkipSpaces(s, 0, |s|) == 1;
      assert TrimEnd(s, 1, |s|) == |s|;
      assert s[1..|s|] == t;
    } else {
      assert SkipSpaces(" ", 1, 1) == 1;
      assert SkipSpaces(" ", 0, 1) == 1;
    }
  }

  // ---- name, type, length, flags ----

  lemma NameParses(name: string, rest: string, q: char)
    requires IsReadable(name, q)
    ensures Id(QuoteIdentifier(name, true, NUL, q) + rest, q) == (name, rest)
  {
    ReadableIsQuoted(name, q);
    Regroup([q] + name, [q], rest);
    Regroup([q], name, [q] + rest);
    NameCutOut(name, rest, q);
  }

  lemma ReadableIsQuoted(name: string, q: char)
    requires IsReadable(name, q)
    ensures QuoteIdentifier(name, true, NUL, q) == [q] + name + [q]
  {
    ReplacePrefixes(name, q, q);
    NotDoubled(name, q);
  }

  lemma NameCutOut(name: string, rest: string, q: char)
    requires IsReadable(name, q)
    ensures Id([q] + (name + ([q] + rest)), q) == (name, rest)
  {
    var t := name + ([q] + rest);
    assert ([q] + t)[1..] == t;
    FirstOf(name, [q] + rest, q);
    assert ([q] + t)[1..1 + |name|] == t[..|name|] && t[..|name|] == name;
    assert ([q] + t)[|name| + 2..] == t[|name| + 1..] && t[|name| + 1..] == rest;
  }

  /** No other name is ever read. */
  lemma NameIsReadable(s: string, q: char)
    requires Id(s, q).0 != []
    ensures IsReadable(Id(s, q).0, q)
  {
    var left := IndexOf(s, q) + 1;
    NotBefore(s[left..], q);
  }

  lemma {:induction false} NotBefore(s: string, c: char)
    ensures IndexOf(s, c) <= |s| && (IndexOf(s, c) > 0 ==> c !in s[..IndexOf(s, c)])
  {
    if s != [] && s[0] != c {
      NotBefore(s[1..], c);
      if IndexOf(s, c) > 0 {
        assert s[..IndexOf(s, c)] == [s[0]] + s[1..][..IndexOf(s, c) - 1];
      }
    }
  }

  lemma {:induction false} NotDoubled(s: string, c: char)
    requires c !in s
    ensures Prefixed(s, c, c) == s
  {
    if s != [] {
      NotDoubled(s[1..], c);
    }
  }


  lemma {:induction false} TypeFound(types: seq<DataType>, i: nat, rest: string)
    requires i < |types| && IsFirstMatch(types, i) && rest != [] && (rest[0] == ' ' || rest[0] == '(')
    ensures TypeIn(types, types[i].name + rest) == Some(types[i])
  {
    var name := types[i].name;
    if i == 0 {
      BeginsWithSelf(name, rest);
    } else {
      var other := types[0].name;
      if BeginsWith(name + rest, other) {
        assert forall k | 0 <= k < |name| :: (name + rest)[k] == name[k];
        assert BeginsWith(other, name);
        assert false;
      }
      forall k | 0 <= k < i - 1
        ensures var other := types[1..][k].name;
                |other| >= |name| && (BeginsWith(other, name)
                  ==> |other| > |name| && other[|name|] != ' ' && other[|name|] != '(')
      {
        assert types[1..][k] == types[k + 1];
      }
      TypeFound(types[1..], i - 1, rest);
    }
  }

  lemma TypeParses(types: seq<DataType>, dataType: DataType, rest: string)
    requires dataType.name != [] && !IsSpace(dataType.name[0])
    requires exists i | 0 <= i < |types| :: types[i] == dataType && IsFirstMatch(types, i)
    requires rest != [] && (rest[0] == ' ' || rest[0] == '(')
    ensures TypeByName(" " + (dataType.name + rest), types) == (dataType, rest)
  {
    var i :| 0 <= i < |types| && types[i] == dataType && IsFirstMatch(types, i);
    OneSpace(dataType.name + rest);
    TypeFound(types, i, rest);
    assert (" " + (dataType.name + rest))[1 + |dataType.name|..] == rest;
  }

  lemma {:induction false} SetCloses(s: string, inLiteral: bool, rest: string)
    requires IsLengthSet(s, inLiteral)
    ensures Closing(s + (")" + rest), inLiteral) == Some(|s|)
  {
    if s == [] {
      assert s + (")" + rest) == ")" + rest;
    } else {
      assert (s + (")" + rest))[1..] == s[1..] + (")" + rest);
      SetCloses(s[1..], if s[0] == QUOTE then !inLiteral else inLiteral, rest);
    }
  }

  lemma LengthParses(c: Column, rest: string)
    requires IsLengthSet(c.lengthSet, false)
    requires rest != [] && !IsSpace(rest[0]) && rest[0] != '('
    ensures LengthSet(LengthText(c) + (" " + rest))
            == (PrintedLength(c), if PrintedLength(c) == [] then rest else " " + rest)
  {
    if PrintedLength(c) == [] {
      assert LengthText(c) + (" " + rest) == " " + rest;
      OneSpace(rest);
    } else {
      var t := LengthText(c) + (" " + rest);
      var inner := c.lengthSet + (")" + (" " + rest));
      assert t == "(" + inner;
      SetCloses(c.lengthSet, false, " " + rest);
      assert t[1..] == inner;
      assert t[Spaces(t)..] == t;
      assert t[1..|c.lengthSet| + 1] == c.lengthSet;
      assert t[|c.lengthSet| + 2..] == " " + rest;
    }
  }

  // From the flags on, every piece of the text begins with a space.
  function NullWords(c: Column, rest: string): string
  {
    (if c.allowNull then "NULL" else "NOT NULL") + rest
  }

  function ZeroFillWords(c: Column, rest: string): string
  {
    if PrintsZeroFill(c) then "ZEROFILL" + (" " + NullWords(c, rest)) else NullWords(c, rest)
  }

  function UnsignedWords(c: Column, rest: string): string
  {
    if PrintsUnsigned(c) then "UNSIGNED" + (" " + ZeroFillWords(c, rest)) else ZeroFillWords(c, rest)
  }

  lemma NullParses(c: Column, rest: string)
    ensures AllowNull(NullWords(c, rest)) == (c.allowNull, rest)
  {
    if c.allowNull {
      var t := "NULL" + rest;
      NoSpaces(t);
      assert t[1] == 'U';
      assert !BeginsWith(t, "NOT NULL");
      WordFound("NULL", rest);
    } else {
      WordFound("NOT NULL", rest);
    }
  }

  lemma NoOption(t: string, head: string)
    requires t != [] && t[0] == 'N' && head != [] && head[0] == 'C'
    ensures NamedOption(t, head) == ([], t)
  {
  }

  lemma FlagsParse(c: Column, s: string, rest: string)
    requires EndsWell(rest) && (s == " " + UnsignedWords(c, rest) || s == UnsignedWords(c, rest))
    ensures var uns := StartsFrom(s, "UNSIGNED");
            var zero := StartsFrom(uns.1, "ZEROFILL");
            uns.0 == PrintsUnsigned(c) && zero.0 == PrintsZeroFill(c) && Trimmed(zero.1) == NullWords(c, rest)
  {
    var n := NullWords(c, rest);
    var z := ZeroFillWords(c, rest);
    EndsWellPlus(if c.allowNull then "NULL" else "NOT NULL", rest);
    TrimmedIs(n);
    if PrintsUnsigned(c) {
      WordFound("UNSIGNED", " " + z);
    } else {
      OtherWord(z, "UNSIGNED");
    }
    if PrintsZeroFill(c) {
      WordFound("ZEROFILL", " " + n);
    } else {
      OtherWord(n, "ZEROFILL");
    }
  }

  lemma AttributesParse(c: Column, rest: string)
    requires EndsWell(rest) && IsLengthSet(c.lengthSet, false)
    ensures Attributes(c.id, c.name, c.dataType, LengthText(c) + (" " + UnsignedWords(c, rest)))
         == Column(c.id, c.name, c.dataType, PrintedLength(c), PrintsUnsigned(c), c.allowNull, PrintsZeroFill(c),
                   Default(rest).defaultType, Default(rest).text, Comment(Default(rest).rest), [], [])
  {
    var u := UnsignedWords(c, rest);
    LengthParses(c, u);
    FlagsParse(c, if PrintedLength(c) == [] then u else " " + u, rest);
    OptionsParse(c, rest);
  }

  /** No character set or collation is taken from the text at NULL. */
  lemma OptionsParse(c: Column, rest: string)
    requires EndsWell(rest)
    ensures var n := NullWords(c, rest);
            && Trimmed(n) == n && NamedOption(n, "CHARACTER SET ") == ([], n) && NamedOption(n, "COLLATE ") == ([], n)
            && AllowNull(n) == (c.allowNull, rest)
  {
    var n := NullWords(c, rest);
    NoOption(n, "CHARACTER SET ");
    NoOption(n, "COLLATE ");
    EndsWellPlus(if c.allowNull then "NULL" else "NOT NULL", rest);
    TrimmedIs(n);
    NullParses(c, rest);
  }

  // ---- the comment ----

  /** A text that may follow a column definition on its line. */
  predicate IsLineEnd(tail: string)
  {
    tail == [] || tail == ","
  }

  function BareComment(c: Column, tail: string): string
  {
    if c.comment == [] then tail else "COMMENT" + (" " + Quoted(c.comment, tail))
  }

  lemma CommentWords(l: string, tail: string)
    ensures " COMMENT " + l + tail == " " + ("COMMENT" + (" " + (l + tail)))
  {
    assert " COMMENT " + l + tail == " COMMENT " + (l + tail);
  }

  lemma CommentShape(c: Column, tail: string)
    requires IsLineEnd(tail)
    ensures CommentText(c) + tail == if c.comment == [] then tail else " " + BareComment(c, tail)
    ensures EndsWell(BareComment(c, tail)) && EndsWell(CommentText(c) + tail)
  {
    if c.comment == [] {
      assert CommentText(c) + tail == tail;
    } else {
      QuotedIs(c.comment, tail);
      CommentWords(MySQLEscape(c.comment, false, true), tail);
      QuotedEndsWell(c.comment, tail);
      EndsWellPlus(" ", Quoted(c.comment, tail));
      EndsWellPlus("COMMENT", " " + Quoted(c.comment, tail));
      EndsWellPlus(" ", BareComment(c, tail));
    }
  }

  lemma QuotedEndsWell(s: string, rest: string)
    requires EndsWell(rest)
    ensures EndsWell(Quoted(s, rest))
  {
    EndsWellPlus([QUOTE], rest);
    EndsWellPlus(Escaped(s), [QUOTE] + rest);
    EndsWellPlus([QUOTE], Escaped(s) + ([QUOTE] + rest));
  }

  /** The comment comes back exactly when it is plain. */
  lemma CommentParses(c: Column, tail: string)
    requires IsLineEnd(tail)
    ensures Comment(BareComment(c, tail)) == Comment(CommentText(c) + tail)
    ensures Comment(BareComment(c, tail)) == c.comment <==> IsPlain(c.comment)
  {
    CommentShape(c, tail);
    if c.comment == [] {
      OtherWord(tail, "COMMENT");
    } else {
      CommentIsMatched(c.comment, tail);
      MatchedIffPlain([], c.comment, tail);
      assert [] + Quoted(c.comment, tail) == Quoted(c.comment, tail);
    }
  }

  lemma CommentIsMatched(s: string, tail: string)
    requires EndsWell(tail)
    ensures var t := "COMMENT" + (" " + Quoted(s, tail));
            var r := QuotedStr(Quoted(s, tail)).0;
            Comment(t) == Comment(" " + t) == if r.Some? then r.value else []
  {
    var q := Quoted(s, tail);
    WordFound("COMMENT", " " + q);
    QuotedEndsWell(s, tail);
    TrimmedIs(q);
  }

  lemma MatchedIffPlain(front: string, s: string, rest: string)
    requires QUOTE !in front && (rest == [] || rest[0] != QUOTE)
    ensures QuotedStr(front + Quoted(s, rest)).0 == Some(s) <==> IsPlain(s)
  {
    if IsPlain(s) {
      PlainIsMatched(front, s, rest);
    } else if QuotedStr(front + Quoted(s, rest)).0 == Some(s) {
      MatchedIsPlain(front, s, rest);
    }
  }

  lemma LineEndHasNoMatch(tail: string)
    requires IsLineEnd(tail)
    ensures FindOnUpdate(tail).None?
  {
    InertIsSkipped(tail, []);
    assert tail + [] == tail;
  }

  /** The first match in what follows a default is that of a plain comment. */
  lemma MatchInComment(c: Column, tail: string)
    requires IsLineEnd(tail) && IsPlain(c.comment)
    ensures FindOnUpdate(CommentText(c) + tail) == FindOnUpdate(BareComment(c, tail)) == FindOnUpdate(c.comment)
  {
    CommentShape(c, tail);
    LineEndHasNoMatch(tail);
    if c.comment != [] {
      PlainEscaped(c.comment);
      MatchInText(c.comment, tail);
    }
  }

  lemma MatchInText(s: string, tail: string)
    requires FindOnUpdate(tail).None?
    ensures var t := "COMMENT" + (" " + ([QUOTE] + (s + ([QUOTE] + tail))));
            FindOnUpdate(t) == FindOnUpdate(s) && FindOnUpdate(" " + t) == FindOnUpdate(s)
  {
    FoundBeforeQuote(s, tail);
    CommentIsSkipped(s + ([QUOTE] + tail));
  }

  lemma CommentIsSkipped(inner: string)
    ensures var t := "COMMENT" + (" " + ([QUOTE] + inner));
            FindOnUpdate(t) == FindOnUpdate(inner) && FindOnUpdate(" " + t) == FindOnUpdate(inner)
  {
    SpacedWordIsSkipped([QUOTE], inner);
    WordsAreSkipped("COMMENT", " " + ([QUOTE] + inner));
  }

  lemma WordsAreSkipped(word: string, rest: string)
    requires word != [] && HasNoSpace(word) && ToLowerChar(word[0]) != 'o'
    ensures FindOnUpdate(word + rest) == FindOnUpdate(" " + (word + rest)) == FindOnUpdate(rest)
  {
    WordIsSkipped(word, rest);
    SpacedWordIsSkipped(word, rest);
  }
}
