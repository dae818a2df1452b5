/** Defaults in printed column definitions, and the round trip of a whole column. */
module ColumnDefaults {
  import opened QtStrings
  import opened Schema
  import opened Escaping
  import opened Identifiers
  import opened Patterns
  import opened ColumnSql
  import opened TableStructureParser
  import opened QuotedTexts
  import opened OnUpdatePattern
  import opened ColumnRoundTrip
  import opened CommentCuts

  /** What follows a default: nothing, a comma, or a comment with a space in front; bare is
      the same without the space. */
  ghost predicate IsAfter(after: string, bare: string)
  {
    && (bare == [] || bare[0] == ',' || bare[0] == 'C')
    && (after == bare || after == " " + bare)
    && EndsWell(bare) && EndsWell(after)
  }

  lemma NoDefaultParses(after: string, bare: string)
    requires IsAfter(after, bare)
    ensures Default(after) == Found(NoDefault, [], bare)
  {
    OtherWord(bare, "AUTO_INCREMENT");
    OtherWord(bare, "DEFAULT nextval(");
    OtherWord(bare, "DEFAULT ");
  }

  lemma AutoIncParses(after: string)
    ensures Default(" " + ("AUTO_INCREMENT" + after)) == Found(AutoInc, [], after)
  {
    WordFound("AUTO_INCREMENT", after);
  }

  const DEFAULT := "DEFAULT "

  lemma DefaultParses(x: string)
    requires !BeginsWith(x, "nextval(")
    ensures Default(" " + (DEFAULT + x)) == if IsLiteral(x) then LiteralDefault(x) else WordDefault(x)
  {
    var t := DEFAULT + x;
    OtherWord(t, "AUTO_INCREMENT");
    NoSpaces(t);
    NotNextval(x);
    WordFound(DEFAULT, x);
  }

  lemma NotNextval(x: string)
    requires !BeginsWith(x, "nextval(")
    ensures !BeginsWith(DEFAULT + x, "DEFAULT nextval(")
  {
    var s, needle := DEFAULT + x, "DEFAULT nextval(";
    assert needle == DEFAULT + "nextval(";
    if BeginsWith(s, needle) {
      forall k | 0 <= k < 8
        ensures ToLowerChar(x[k]) == ToLowerChar("nextval("[k])
      {
        assert s[8 + k] == x[k] && needle[8 + k] == "nextval("[k];
      }
    }
  }

  lemma NullParses(y: string)
    ensures var onUpdate := OnUpdateCurTs(y);
            Default(" " + (DEFAULT + ("NULL" + y)))
            == Found(if onUpdate.0 then NullUpdateTS else NullDefault, [], onUpdate.1)
  {
    var x := "NULL" + y;
    assert x[0] == 'N' && x[1] == 'U';
    DefaultParses(x);
    WordFound("NULL", y);
  }

  function LengthIn(s: string): string
  {
    if s == [] then [] else "(" + (s + ")")
  }

  lemma TimestampParses(length: string, y: string)
    requires (forall c | c in length :: IsDigit(c)) && (y == [] || y[0] != '(')
    ensures var onUpdate := OnUpdateCurTs(y);
            Default(" " + (DEFAULT + (CURRENT_TIMESTAMP + (LengthIn(length) + y))))
            == Found(if onUpdate.0 then CurTSUpdateTS else CurTS, [], onUpdate.1)
  {
    var l := LengthIn(length);
    var x := CURRENT_TIMESTAMP + (l + y);
    assert x[0] == 'C';
    DefaultParses(x);
    OtherWord(x, "NULL");
    CurTSIsFound(length, y);
  }

  lemma CurTSIsFound(length: string, y: string)
    requires (forall c | c in length :: IsDigit(c)) && (y == [] || y[0] != '(')
    ensures var x := CURRENT_TIMESTAMP + (LengthIn(length) + y);
            var n := FindCurTS(x);
            n.Some? && x[n.value..] == y
  {
    var l := LengthIn(length);
    var x := CURRENT_TIMESTAMP + (l + y);
    BeginsWithSelf(CURRENT_TIMESTAMP, l + y);
    assert x[17..] == l + y;
    LengthIsTaken(length, y);
    assert CurTSAt(x) == Some(17 + |l|);
    assert (l + y)[|l|..] == y;
    assert x[17 + |l|..] == x[17..][|l|..];
  }

  lemma LiteralStarts(isBit: bool, quoted: string)
    requires quoted != [] && quoted[0] == QUOTE
    ensures var x := (if isBit then "b" else []) + quoted;
            x != [] && !IsSpace(x[0])
            && if isBit then StartsWith(x, "b'") else StartsWith(x, "'") && !StartsWith(x, "b'")
  {
    if isBit {
      assert ("b" + quoted)[1] == QUOTE;
    } else {
      NothingBefore(quoted);
    }
  }

  lemma LiteralFound(x: string)
    requires IsLiteral(x) && !BeginsWith(x, "nextval(") && Trimmed(x) == x
    ensures var quoted := QuotedStr(x);
            var onUpdate := OnUpdateCurTs(Trimmed(quoted.1));
            Default(" " + (DEFAULT + x))
            == Found(if onUpdate.0 then TextUpdateTS else if quoted.0.Some? then TextDefault else NoDefault,
                     if quoted.0.Some? then quoted.0.value else [], onUpdate.1)
  {
    DefaultParses(x);
  }

  /** A literal, as a bit value or not. */
  lemma LiteralParses(isBit: bool, text: string, y: string)
    requires EndsWell(y) && (y == [] || y[0] != QUOTE)
    ensures var front := if isBit then "b" else [];
            var quoted := QuotedStr(front + Quoted(text, y));
            var onUpdate := OnUpdateCurTs(Trimmed(quoted.1));
            Default(" " + (DEFAULT + (front + Quoted(text, y))))
            == Found(if onUpdate.0 then TextUpdateTS else if quoted.0.Some? then TextDefault else NoDefault,
                     if quoted.0.Some? then quoted.0.value else [], onUpdate.1)
  {
    QuotedEndsWell(text, y);
    LiteralIsPlaced(isBit, Quoted(text, y));
    LiteralFound((if isBit then "b" else []) + Quoted(text, y));
  }

  lemma LiteralIsPlaced(isBit: bool, quoted: string)
    requires quoted != [] && quoted[0] == QUOTE && EndsWell(quoted)
    ensures var x := (if isBit then "b" else []) + quoted; IsLiteral(x) && !BeginsWith(x, "nextval(") && Trimmed(x) == x
  {
    LiteralStarts(isBit, quoted);
    EndsWellPlus(if isBit then "b" else [], quoted);
    TrimmedIs((if isBit then "b" else []) + quoted);
  }

  // ---- the printed forms, as texts that begin piece by piece ----

  lemma OnUpdateShape(c: Column, rest: string)
    ensures OnUpdateText(c) + rest
         == " " + ("ON" + (" " + ("UPDATE" + (" " + (CURRENT_TIMESTAMP + (LengthIn(c.lengthSet) + rest))))))
  {
    var l := TimestampLength(c);
    Regroup(" ON UPDATE " + CURRENT_TIMESTAMP, l, rest);
    Regroup(" ON UPDATE ", CURRENT_TIMESTAMP, l + rest);
    OnUpdateWords(CURRENT_TIMESTAMP + (l + rest));
  }

  lemma OnUpdateWords(x: string)
    ensures " ON UPDATE " + x == " " + ("ON" + (" " + ("UPDATE" + (" " + x))))
  {
  }

  lemma DefaultWords(x: string, y: string)
    ensures " DEFAULT " + x + y == " " + (DEFAULT + (x + y))
    ensures " DEFAULT NULL" + y == " " + (DEFAULT + ("NULL" + y))
    ensures " DEFAULT " + CURRENT_TIMESTAMP + y == " " + (DEFAULT + (CURRENT_TIMESTAMP + y))
    ensures " AUTO_INCREMENT" + y == " " + ("AUTO_INCREMENT" + y)
  {
    Regroup(" DEFAULT ", x, y);
    assert " DEFAULT " + (x + y) == " " + (DEFAULT + (x + y));
    Regroup(" DEFAULT ", CURRENT_TIMESTAMP, y);
    assert " DEFAULT " + (CURRENT_TIMESTAMP + y) == " " + (DEFAULT + (CURRENT_TIMESTAMP + y));
  }

  function BitMark(c: Column): string
  {
    if c.dataType.isBit then "b" else []
  }

  lemma LiteralShape(c: Column, y: string)
    ensures " DEFAULT " + LiteralText(c) + y == " " + (DEFAULT + (BitMark(c) + Quoted(c.defaultText, y)))
  {
    DefaultWords(LiteralText(c), y);
    Regroup(BitMark(c), MySQLEscape(c.defaultText, false, true), y);
    QuotedIs(c.defaultText, y);
  }

  // ---- which columns come back ----

  /** Only fields the type has are set, and no character set or collation, which are not
      printed or not parsed. */
  predicate IsCarried(c: Column)
  {
    && c.charset == [] && c.collation == []
    && (c.lengthSet != [] ==> c.dataType.hasLength)
    && (c.isUnsigned || c.zeroFill ==> c.dataType.isNumeric)
  }

  /** The comment holds an ON UPDATE clause as long as the printed one, or as its trimmed form. */
  predicate HoldsClauseAsLong(c: Column)
  {
    var n := FindOnUpdate(c.comment);
    n.Some? && (n.value == |OnUpdateText(c)| || n.value == |OnUpdateText(c)| - 1)
  }

  /** A kind of default that the printer writes and the parser recognises, a text and a
      comment without quotes and backslashes; and where an ON UPDATE clause could follow the
      default, no comment that holds one. Behind a text it is the other way round: the clause
      is only noticed when the comment holds one of its length. */
  predicate HasRecoverableDefault(c: Column)
  {
    && IsPlain(c.comment)
    && (c.defaultType != TextDefault && c.defaultType != TextUpdateTS ==> c.defaultText == [])
    && match c.defaultType
       case NoDefault => true
       case AutoInc => true
       case NullUpdateTS => true
       case CurTSUpdateTS => true
       case NullDefault => FindOnUpdate(c.comment).None?
       case CurTS => FindOnUpdate(c.comment).None?
       case TextDefault => IsPlain(c.defaultText) && FindOnUpdate(c.comment).None?
       case TextUpdateTS => IsPlain(c.defaultText) && HoldsClauseAsLong(c)
       case CurTime => false
       case CurDate => false
  }

  predicate IsRecoverable(c: Column)
  {
    IsCarried(c) && HasRecoverableDefault(c)
  }

  /** The default and the comment of the column are what was found. */
  predicate Agrees(c: Column, d: Found)
  {
    d.defaultType == c.defaultType && d.text == c.defaultText && Comment(d.rest) == c.comment
  }

  lemma AfterDefault(c: Column, tail: string)
    requires IsLineEnd(tail)
    ensures IsAfter(CommentText(c) + tail, BareComment(c, tail))
    ensures var after := CommentText(c) + tail; after == [] || (after[0] != '(' && after[0] != QUOTE)
  {
    CommentShape(c, tail);
  }

  lemma NullIff(c: Column, tail: string)
    requires IsLineEnd(tail) && c.defaultType == NullDefault
    ensures Agrees(c, Default(DefaultText(c) + (CommentText(c) + tail))) <==> HasRecoverableDefault(c)
  {
    var after := CommentText(c) + tail;
    DefaultWords([], after);
    NullParses(after);
    NoClauseIff(c, tail);
  }

  lemma NullUpdateIff(c: Column, tail: string)
    requires IsLineEnd(tail) && c.defaultType == NullUpdateTS && forall x | x in c.lengthSet :: IsDigit(x)
    ensures Agrees(c, Default(DefaultText(c) + (CommentText(c) + tail))) <==> HasRecoverableDefault(c)
  {
    var after := CommentText(c) + tail;
    Regroup(" DEFAULT NULL", OnUpdateText(c), after);
    DefaultWords([], OnUpdateText(c) + after);
    NullParses(OnUpdateText(c) + after);
    OnUpdateShape(c, after);
    AfterDefault(c, tail);
    ClauseIsFound(c.lengthSet, after);
    CommentParses(c, tail);
  }

  lemma CurTSIff(c: Column, tail: string)
    requires IsLineEnd(tail) && c.defaultType == CurTS && forall x | x in c.lengthSet :: IsDigit(x)
    ensures Agrees(c, Default(DefaultText(c) + (CommentText(c) + tail))) <==> HasRecoverableDefault(c)
  {
    var after := CommentText(c) + tail;
    Regroup(" DEFAULT " + CURRENT_TIMESTAMP, TimestampLength(c), after);
    DefaultWords([], LengthIn(c.lengthSet) + after);
    AfterDefault(c, tail);
    TimestampParses(c.lengthSet, after);
    NoClauseIff(c, tail);
  }

  /** Where no clause was printed, none is found, and the comment is, exactly when it is plain
      and holds none. */
  lemma NoClauseIff(c: Column, tail: string)
    requires IsLineEnd(tail)
    ensures var cut := OnUpdateCurTs(CommentText(c) + tail);
            !cut.0 && Comment(cut.1) == c.comment <==> IsPlain(c.comment) && FindOnUpdate(c.comment).None?
  {
    CommentParses(c, tail);
    if IsPlain(c.comment) {
      MatchInComment(c, tail);
    }
  }

  lemma CurTSUpdateParses(c: Column, after: string)
    requires c.defaultType == CurTSUpdateTS && (after == [] || after[0] != '(')
             && forall x | x in c.lengthSet :: IsDigit(x)
    ensures Default(DefaultText(c) + after) == Found(CurTSUpdateTS, [], after)
  {
    var y := OnUpdateText(c) + after;
    Regroup(" DEFAULT " + CURRENT_TIMESTAMP + TimestampLength(c), OnUpdateText(c), after);
    Regroup(" DEFAULT " + CURRENT_TIMESTAMP, TimestampLength(c), y);
    DefaultWords([], LengthIn(c.lengthSet) + y);
    OnUpdateShape(c, after);
    TimestampParses(c.lengthSet, y);
    ClauseIsFound(c.lengthSet, after);
  }

  lemma CurTSUpdateIff(c: Column, tail: string)
    requires IsLineEnd(tail) && c.defaultType == CurTSUpdateTS && forall x | x in c.lengthSet :: IsDigit(x)
    ensures Agrees(c, Default(DefaultText(c) + (CommentText(c) + tail))) <==> HasRecoverableDefault(c)
  {
    AfterDefault(c, tail);
    CurTSUpdateParses(c, CommentText(c) + tail);
    CommentParses(c, tail);
  }

  /** What is found of a printed text depends on whether it is plain. */
  lemma TextParses(c: Column, after: string)
    requires c.defaultType == TextDefault && EndsWell(after) && (after == [] || after[0] != QUOTE)
    ensures var d := Default(DefaultText(c) + after);
            var onUpdate := OnUpdateCurTs(Trimmed(after));
            if IsPlain(c.defaultText) then
              d == Found(if onUpdate.0 then TextUpdateTS else TextDefault, c.defaultText, onUpdate.1)
            else d.text == c.defaultText ==> d.defaultType == NoDefault || d.defaultType == TextUpdateTS
  {
    LiteralShape(c, after);
    LiteralParses(c.dataType.isBit, c.defaultText, after);
    MatchedIffPlain(BitMark(c), c.defaultText, after);
    if IsPlain(c.defaultText) {
      PlainIsMatched(BitMark(c), c.defaultText, after);
    }
  }

  lemma TextIff(c: Column, tail: string)
    requires IsLineEnd(tail) && c.defaultType == TextDefault
    ensures Agrees(c, Default(DefaultText(c) + (CommentText(c) + tail))) <==> HasRecoverableDefault(c)
  {
    AfterDefault(c, tail);
    TextParses(c, CommentText(c) + tail);
    AfterTextIff(c, tail);
  }

  lemma AfterTextIff(c: Column, tail: string)
    requires IsLineEnd(tail)
    ensures Trimmed(CommentText(c) + tail) == BareComment(c, tail)
    ensures FindOnUpdate(BareComment(c, tail)).None? && Comment(BareComment(c, tail)) == c.comment
       <==> IsPlain(c.comment) && FindOnUpdate(c.comment).None?
  {
    TrimmedAfter(c, tail);
    CommentParses(c, tail);
    if IsPlain(c.comment) {
      MatchInComment(c, tail);
    }
  }

  lemma TrimmedAfter(c: Column, tail: string)
    requires IsLineEnd(tail)
    ensures Trimmed(CommentText(c) + tail) == BareComment(c, tail)
  {
    AfterDefault(c, tail);
    TrimmedIs(BareComment(c, tail));
  }

  lemma TextUpdateIff(c: Column, tail: string)
    requires IsLineEnd(tail) && c.defaultType == TextUpdateTS && forall x | x in c.lengthSet :: IsDigit(x)
    ensures Agrees(c, Default(DefaultText(c) + (CommentText(c) + tail))) <==> HasRecoverableDefault(c)
  {
    var after := CommentText(c) + tail;
    var y := OnUpdateText(c) + after;
    Regroup(" DEFAULT " + LiteralText(c), OnUpdateText(c), after);
    LiteralShape(c, y);
    AfterDefault(c, tail);
    EndsWellPlus(OnUpdateText(c), after);
    LiteralParses(c.dataType.isBit, c.defaultText, y);
    MatchedIffPlain(BitMark(c), c.defaultText, y);
    if IsPlain(c.defaultText) {
      PlainIsMatched(BitMark(c), c.defaultText, y);
      ClauseCutIff(c, tail);
    }
  }

  /** Without the space in front the clause itself is not recognised. One in the comment is,
      and as many characters are cut off in front. */
  lemma ClauseCutIff(c: Column, tail: string)
    requires IsLineEnd(tail) && forall x | x in c.lengthSet :: IsDigit(x)
    ensures var cut := OnUpdateCurTs(Trimmed(OnUpdateText(c) + (CommentText(c) + tail)));
            cut.0 && Comment(cut.1) == c.comment <==> IsPlain(c.comment) && HoldsClauseAsLong(c)
  {
    var after := CommentText(c) + tail;
    TrimmedClauseIsMissed(c, tail);
    LineEndHasNoMatch(tail);
    CommentShape(c, tail);
    MatchIsLong(after);
    if IsPlain(c.comment) {
      MatchInComment(c, tail);
    }
    var n := FindOnUpdate(after);
    if n.Some? {
      ClauseLength(c, after);
      LengthHasNoWord(c);
      CutAtIff(c, tail, LengthIn(c.lengthSet), Trimmed(OnUpdateText(c) + after), n.value);
    }
  }

  /** What a cut of n characters leaves of a text of 27 and what follows them. */
  lemma CutAtIff(c: Column, tail: string, l: string, t: string, n: nat)
    requires IsLineEnd(tail) && c.comment != [] && 28 <= n <= |t| && t[27..] == l + (" " + BareComment(c, tail))
    requires forall k | 1 <= k < |l| :: !IsSpace(l[k]) && ToLowerChar(l[k]) != 'c'
    ensures Comment(t[n..]) == c.comment <==> IsPlain(c.comment) && (n == 27 + |l| || n == 28 + |l|)
  {
    assert t[n..] == t[27..][n - 27..];
    CutIff(c, tail, l, n - 27);
  }

  lemma ClauseLength(c: Column, after: string)
    requires EndsWell(after)
    ensures |OnUpdateText(c)| == 28 + |LengthIn(c.lengthSet)|
    ensures var t := Trimmed(OnUpdateText(c) + after); |t| >= 27 && t[27..] == LengthIn(c.lengthSet) + after
  {
    ClauseTrimmed(c, after);
    ClauseIsCut(LengthIn(c.lengthSet) + after);
  }

  lemma ClauseIsCut(x: string)
    ensures ("ON" + (" " + ("UPDATE" + (" " + (CURRENT_TIMESTAMP + x)))))[27..] == x
  {
    assert "ON" + (" " + ("UPDATE" + (" " + (CURRENT_TIMESTAMP + x)))) == "ON UPDATE CURRENT_TIMESTAMP" + x;
  }

  lemma TrimmedClauseIsMissed(c: Column, tail: string)
    requires IsLineEnd(tail) && forall x | x in c.lengthSet :: IsDigit(x)
    ensures var after := CommentText(c) + tail;
            FindOnUpdate(Trimmed(OnUpdateText(c) + after)) == FindOnUpdate(after)
  {
    var l, after := LengthIn(c.lengthSet), CommentText(c) + tail;
    AfterDefault(c, tail);
    ClauseTrimmed(c, after);
    LengthHasNoSpace(c);
    WordIsSkipped(l, after);
    ClauseIsSkipped(l + after);
  }

  lemma ClauseIsSkipped(x: string)
    ensures FindOnUpdate("ON" + (" " + ("UPDATE" + (" " + (CURRENT_TIMESTAMP + x))))) == FindOnUpdate(x)
  {
    OnIsSkipped(" " + ("UPDATE" + (" " + (CURRENT_TIMESTAMP + x))));
    UpdateIsSkipped(" " + (CURRENT_TIMESTAMP + x));
    TimestampIsSkipped(x);
  }

  lemma OnIsSkipped(x: string)
    ensures FindOnUpdate("ON" + x) == FindOnUpdate(x)
  {
    WordIsSkipped("ON", x);
  }

  lemma UpdateIsSkipped(x: string)
    ensures FindOnUpdate(" " + ("UPDATE" + x)) == FindOnUpdate(x)
  {
    SpacedWordIsSkipped("UPDATE", x);
  }

  lemma TimestampIsSkipped(x: string)
    ensures FindOnUpdate(" " + (CURRENT_TIMESTAMP + x)) == FindOnUpdate(x)
  {
    SpacedWordIsSkipped(CURRENT_TIMESTAMP, x);
  }

  lemma ClauseTrimmed(c: Column, after: string)
    requires EndsWell(after)
    ensures Trimmed(OnUpdateText(c) + after)
         == "ON" + (" " + ("UPDATE" + (" " + (CURRENT_TIMESTAMP + (LengthIn(c.lengthSet) + after)))))
  {
    var t := "ON" + (" " + ("UPDATE" + (" " + (CURRENT_TIMESTAMP + (LengthIn(c.lengthSet) + after)))));
    OnUpdateShape(c, after);
    ClauseEndsWell(c);
    EndsWellPlus(OnUpdateText(c), after);
    assert (" " + t)[|t|] == t[|t| - 1];
    TrimmedIs(t);
  }

  lemma LengthHasNoSpace(c: Column)
    requires forall x | x in c.lengthSet :: IsDigit(x)
    ensures HasNoSpace(LengthIn(c.lengthSet))
  {
    var l := LengthIn(c.lengthSet);
    forall k | 0 <= k < |l|
      ensures !IsPatternSpace(l[k])
    {
      assert l == "(" + c.lengthSet + ")";
      assert 0 < k < |l| - 1 ==> l[k] == c.lengthSet[k - 1] && c.lengthSet[k - 1] in c.lengthSet;
    }
  }

  lemma LengthHasNoWord(c: Column)
    requires forall x | x in c.lengthSet :: IsDigit(x)
    ensures var l := LengthIn(c.lengthSet); forall k | 1 <= k < |l| :: !IsSpace(l[k]) && ToLowerChar(l[k]) != 'c'
  {
    var l := LengthIn(c.lengthSet);
    forall k | 1 <= k < |l|
      ensures !IsSpace(l[k]) && ToLowerChar(l[k]) != 'c'
    {
      assert l == "(" + c.lengthSet + ")";
      assert k < |l| - 1 ==> l[k] == c.lengthSet[k - 1] && c.lengthSet[k - 1] in c.lengthSet;
    }
  }

  lemma DefaultIff(c: Column, tail: string)
    requires IsLineEnd(tail)
    requires IsTimestamp(c.defaultType) ==> forall x | x in c.lengthSet :: IsDigit(x)
    ensures Agrees(c, Default(DefaultText(c) + (CommentText(c) + tail))) <==> HasRecoverableDefault(c)
  {
    match c.defaultType {
      case NullDefault => NullIff(c, tail);
      case NullUpdateTS => NullUpdateIff(c, tail);
      case CurTS => CurTSIff(c, tail);
      case CurTSUpdateTS => CurTSUpdateIff(c, tail);
      case TextDefault => TextIff(c, tail);
      case TextUpdateTS => TextUpdateIff(c, tail);
      case AutoInc =>
        DefaultWords([], CommentText(c) + tail);
        AutoIncParses(CommentText(c) + tail);
        CommentParses(c, tail);
      case _ => NothingIff(c, tail);
    }
  }

  lemma NothingIff(c: Column, tail: string)
    requires IsLineEnd(tail) && DefaultText(c) == []
    ensures Agrees(c, Default(DefaultText(c) + (CommentText(c) + tail)))
       <==> c.defaultType == NoDefault && IsPlain(c.comment) && c.defaultText == []
  {
    var after := CommentText(c) + tail;
    assert DefaultText(c) + after == after;
    AfterDefault(c, tail);
    NoDefaultParses(after, BareComment(c, tail));
    CommentParses(c, tail);
  }

  // ---- the whole definition ----

  lemma FlagsShape(c: Column, rest: string)
    ensures UnsignedText(c) + (ZeroFillText(c) + (NullText(c) + rest)) == " " + UnsignedWords(c, rest)
  {
    assert NullText(c) + rest == " " + NullWords(c, rest);
    var z := ZeroFillText(c) + (NullText(c) + rest);
    assert z == " " + ZeroFillWords(c, rest) by {
      if PrintsZeroFill(c) {
        assert " ZEROFILL" + (" " + NullWords(c, rest)) == " " + ZeroFillWords(c, rest);
      }
    }
    if PrintsUnsigned(c) {
      assert " UNSIGNED" + (" " + ZeroFillWords(c, rest)) == " " + UnsignedWords(c, rest);
    }
  }

  lemma SqlShape(c: Column, tail: string, q: char)
    ensures SqlCode(c, q) + tail
         == QuoteIdentifier(c.name, true, NUL, q)
            + (" " + (c.dataType.name
               + (LengthText(c) + (" " + UnsignedWords(c,
                 DefaultText(c) + (CommentText(c) + (CollateText(c) + tail)))))))
  {
    var id := QuoteIdentifier(c.name, true, NUL, q);
    var t, l, u, z, n, d, m := c.dataType.name, LengthText(c), UnsignedText(c), ZeroFillText(c), NullText(c),
        DefaultText(c), CommentText(c);
    var end := CollateText(c) + tail;
    FlagsShape(c, d + (m + end));
    assert SqlCode(c, q) == id + " " + t + l + u + z + n + d + m + CollateText(c);
    Regroup(id + " " + t + l + u + z + n + d + m, CollateText(c), tail);
    Regroup(id + " " + t + l + u + z + n + d, m, end);
    Regroup(id + " " + t + l + u + z + n, d, m + end);
    Regroup(id + " " + t + l + u + z, n, d + (m + end));
    Regroup(id + " " + t + l + u, z, n + (d + (m + end)));
    Regroup(id + " " + t + l, u, z + (n + (d + (m + end))));
    var flags := u + (z + (n + (d + (m + end))));
    Regroup(id + " " + t, l, flags);
    Regroup(id + " ", t, l + flags);
    Regroup(id, " ", t + (l + flags));
  }

  /** What the parser makes of a printed definition, in terms of what it finds behind NULL. */
  lemma LineParses(c: Column, tail: string, types: seq<DataType>, q: char)
    requires IsReadable(c.name, q) && IsPrintable(c, types) && IsLineEnd(tail)
    ensures var d := Default(DefaultText(c) + (CommentText(c) + (CollateText(c) + tail)));
            ParsedColumn(SqlCode(c, q) + tail, c.id, types, q)
            == Some(Column(c.id, c.name, c.dataType, PrintedLength(c), PrintsUnsigned(c), c.allowNull,
              PrintsZeroFill(c),
                           d.defaultType, d.text, Comment(d.rest), [], []))
  {
    var rest := DefaultText(c) + (CommentText(c) + (CollateText(c) + tail));
    var flags := LengthText(c) + (" " + UnsignedWords(c, rest));
    SqlShape(c, tail, q);
    NameParses(c.name, " " + (c.dataType.name + flags), q);
    assert flags[0] == ' ' || flags[0] == '(';
    TypeParses(types, c.dataType, flags);
    RestEndsWell(c, tail);
    AttributesParse(c, rest);
  }

  lemma RestEndsWell(c: Column, tail: string)
    requires IsLineEnd(tail)
    ensures EndsWell(DefaultText(c) + (CommentText(c) + (CollateText(c) + tail)))
  {
    LiteralTextEndsWell(" COLLATE ", c.collation);
    EndsWellPlus(CollateText(c), tail);
    LiteralTextEndsWell(" COMMENT ", c.comment);
    EndsWellPlus(CommentText(c), CollateText(c) + tail);
    TextEndsWell(c);
    EndsWellPlus(DefaultText(c), CommentText(c) + (CollateText(c) + tail));
  }

  lemma LiteralTextEndsWell(head: string, s: string)
    ensures EndsWell(head + MySQLEscape(s, false, true))
  {
    var e := MySQLEscape(s, false, true);
    assert e[|e| - 1] == QUOTE;
    EndsWellPlus(head, e);
  }

  lemma TextEndsWell(c: Column)
    ensures EndsWell(DefaultText(c))
  {
    var l := TimestampLength(c);
    match c.defaultType {
      case TextDefault => LiteralEndsWell(c);
      case TextUpdateTS =>
        ClauseEndsWell(c);
        EndsWellPlus(" DEFAULT " + LiteralText(c), OnUpdateText(c));
      case NullUpdateTS =>
        ClauseEndsWell(c);
        EndsWellPlus(" DEFAULT NULL", OnUpdateText(c));
      case CurTS => EndsWellPlus(" DEFAULT " + CURRENT_TIMESTAMP, l);
      case CurTSUpdateTS =>
        ClauseEndsWell(c);
        EndsWellPlus(" DEFAULT " + CURRENT_TIMESTAMP + l, OnUpdateText(c));
      case _ =>
    }
  }

  lemma ClauseEndsWell(c: Column)
    ensures EndsWell(OnUpdateText(c)) && OnUpdateText(c) != []
  {
    EndsWellPlus(" ON UPDATE " + CURRENT_TIMESTAMP, TimestampLength(c));
  }

  lemma LiteralEndsWell(c: Column)
    ensures EndsWell(" DEFAULT " + LiteralText(c))
  {
    var e := MySQLEscape(c.defaultText, false, true);
    assert e[|e| - 1] == QUOTE;
    EndsWellPlus(BitMark(c), e);
    EndsWellPlus(" DEFAULT ", LiteralText(c));
  }

  const CLAUSE := " ON UPDATE CURRENT_TIMESTAMP"

  lemma ClauseIsPlain()
    ensures IsPlain(CLAUSE) && |CLAUSE| == 28
  {
  }

  lemma ClauseInWords()
    ensures " " + ("ON" + (" " + ("UPDATE" + (" " + (CURRENT_TIMESTAMP + []))))) == CLAUSE
  {
    NothingBehind(CURRENT_TIMESTAMP);
  }

  lemma CutAll(s: string)
    requires OnUpdateCurTs(s) == (true, [])
    ensures FindOnUpdate(s) == Some(|s|)
  {
    assert |s[FindOnUpdate(s).value..]| == 0;
  }

  lemma ClauseMatches()
    ensures FindOnUpdate(CLAUSE) == Some(28)
  {
    ClauseInWords();
    ClauseWordsTaken([]);
    MatchIsCut(CLAUSE, [], 0);
    ClauseIsPlain();
    CutAll(CLAUSE);
  }

  /** For example, a text with ON UPDATE comes back with a comment that says so, and with none it
      does not. */
  lemma ClauseExample(c: Column)
    requires c.defaultType == TextUpdateTS && IsPlain(c.defaultText) && c.lengthSet == []
    ensures c.comment == CLAUSE ==> HasRecoverableDefault(c)
    ensures c.comment == [] ==> !HasRecoverableDefault(c)
  {
    ClauseIsPlain();
    ClauseMatches();
    assert |OnUpdateText(c)| == 28;
    assert FindOnUpdate([]).None?;
  }

  lemma ParsedIsReadable(line: string, id: nat, types: seq<DataType>, q: char)
    ensures var c := ParsedColumn(line, id, types, q); c.Some? ==> IsReadable(c.value.name, q)
  {
    if Id(line, q).0 != [] {
      NameIsReadable(line, q);
    }
  }

  /** Parsing a printed definition as a whole, at the end of a CREATE TABLE line or not, gives
      back the column exactly when it is recoverable and has a name without the quote. */
  lemma DefinitionRoundTrips(c: Column, tail: string, types: seq<DataType>, q: char)
    requires IsPrintable(c, types) && IsLineEnd(tail)
    ensures ParsedColumn(SqlCode(c, q) + tail, c.id, types, q) == Some(c) <==> IsReadable(c.name, q) && IsRecoverable(c)
  {
    if !IsReadable(c.name, q) {
      ParsedIsReadable(SqlCode(c, q) + tail, c.id, types, q);
      return;
    }
    LineParses(c, tail, types, q);
    if c.collation == [] {
      assert CollateText(c) + tail == tail;
      DefaultIff(c, tail);
    }
  }
}
