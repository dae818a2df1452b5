/** TableStructureParser::parseColumns: one line of CREATE TABLE is consumed from the
    front, piece by piece. Each helper is given as a function of the text it is called
    with, and as the method with the loops.
 */
module TableStructureParser {
  import opened QtStrings
  import opened Schema
  import opened Escaping
  import opened Identifiers
  import opened Patterns

  function Spaces(s: string): (n: nat)
    ensures n <= |s|
    ensures n < |s| ==> !IsSpace(s[n])
  {
    if s != [] && IsSpace(s[0]) then 1 + Spaces(s[1..]) else 0
  }

  /** The loop at the start of most helpers. */
  method SkipSpace(s: string) returns (startPos: nat)
    ensures startPos == Spaces(s)
  {
    startPos := 0;
    while startPos < |s| && IsSpace(s[startPos])
      invariant startPos <= |s| && Spaces(s) == startPos + Spaces(s[startPos..])
    {
      assert s[startPos..][1..] == s[startPos + 1..];
      startPos := startPos + 1;
    }
  }

  // ---- the name ----

  function Id(s: string, q: char): (string, string)
  {
    var left := IndexOf(s, q) + 1;
    if left == 0 then ([], s)
    else
      var n := IndexOf(s[left..], q);
      if n > 0 then (s[left..left + n], s[left + n + 1..]) else ([], s)
  }

  // ---- the type ----

  const UNKNOWN := DataType("UNKNOWN", false, false, false)

  function TypeIn(types: seq<DataType>, s: string): (t: Option<DataType>)
    ensures t.Some? ==> BeginsWith(s, t.value.name)
  {
    if types == [] then None
    else if BeginsWith(s, types[0].name) then Some(types[0])
    else TypeIn(types[1..], s)
  }

  function TypeByName(s: string, types: seq<DataType>): (DataType, string)
  {
    var t := TypeIn(types, s[Spaces(s)..]);
    if t.None? then (UNKNOWN, s) else (t.value, s[Spaces(s) + |t.value.name|..])
  }

  method ExtractDataTypeByName(s: string, types: seq<DataType>) returns (dataType: DataType, rest: string)
    ensures (dataType, rest) == TypeByName(s, types)
  {
    var startPos := SkipSpace(s);
    for i := 0 to |types|
      invariant TypeIn(types, s[startPos..]) == TypeIn(types[i..], s[startPos..])
    {
      if BeginsWith(s[startPos..], types[i].name) {
        return types[i], s[startPos + |types[i].name|..];
      }
      assert types[i..][1..] == types[i + 1..];
    }
    return UNKNOWN, s;
  }

  // ---- the length or set ----

  /** Where a text that begins with a parenthesis closes it, outside of quotes. */
  function Closing(s: string, inLiteral: bool): (n: Option<nat>)
    ensures n.Some? ==> n.value < |s| && s[n.value] == ')'
  {
    if s == [] then None
    else if s[0] == ')' && !inLiteral then Some(0)
    else
      var n := Closing(s[1..], if s[0] == QUOTE then !inLiteral else inLiteral);
      if n.None? then None else Some(n.value + 1)
  }

  function LengthSet(s: string): (string, string)
  {
    var t := s[Spaces(s)..];
    if t == [] || t[0] != '(' then ([], t)
    else
      var close := Closing(t, false);
      if close.None? then ([], t)
      else (if close.value > 1 then t[1..close.value] else [], t[close.value + 1..])
  }

  method ExtractLengthSet(s: string) returns (res: string, rest: string)
    ensures (res, rest) == LengthSet(s)
  {
    res, rest := [], s;
    var startPos := SkipSpace(s);
    var closeIndex := startPos;
    if startPos < |s| && s[startPos] == '(' {
      closeIndex := FindClosing(s, startPos);
      if closeIndex - 1 > startPos {
        res := s[startPos + 1..closeIndex];
        assert res == s[startPos..][1..closeIndex - startPos];
      }
    }
    if closeIndex > startPos {
      rest := s[closeIndex + 1..];
      assert rest == s[startPos..][closeIndex - startPos + 1..];
    } else if startPos > 0 {
      rest := s[startPos..];
    }
  }

  method FindClosing(s: string, startPos: nat) returns (closeIndex: nat)
    requires startPos < |s| && s[startPos] == '('
    ensures var close := Closing(s[startPos..], false);
            if close.Some? then closeIndex == startPos + close.value > startPos else closeIndex == startPos
    ensures closeIndex < |s|
  {
    closeIndex := startPos;
    var inLiteral := false;
    var i := startPos;
    while i < |s|
      invariant startPos <= i <= |s| && closeIndex == startPos
      invariant var a, b := Closing(s[startPos..], false), Closing(s[i..], inLiteral);
                a == if b.Some? then Some(i - startPos + b.value) else None
    {
      assert s[i..][1..] == s[i + 1..];
      if s[i] == ')' && !inLiteral {
        closeIndex := i;
        break;
      }
      if s[i] == QUOTE {
        inLiteral := !inLiteral;
      }
      i := i + 1;
    }
  }

  // ---- words at the front ----

  /** Whether the text begins with a word, after white space; the white space is consumed
      in any case. */
  function StartsFrom(s: string, needle: string): (bool, string)
  {
    var t := s[Spaces(s)..];
    if BeginsWith(t, needle) then (true, t[|needle|..]) else (false, t)
  }

  /** A word is found exactly behind white space and nothing else, in whatever case, and what
      follows it is left. */
  lemma StartsFromIff(s: string, needle: string, rest: string)
    requires needle != [] && !IsSpace(needle[0])
    ensures StartsFrom(s, needle) == (true, rest)
       <==> exists spaces: string, word: string ::
              s == spaces + (word + rest) && IsAllSpace(spaces) && |word| == |needle| && BeginsWith(word, needle)
  {
    if StartsFrom(s, needle) == (true, rest) {
      var n := Spaces(s);
      var t := s[n..];
      SpacesAre(s);
      assert s == s[..n] + (t[..|needle|] + rest);
      assert BeginsWith(t[..|needle|], needle);
    }
    if spaces: string, word: string :|
      s == spaces + (word + rest) && IsAllSpace(spaces) && |word| == |needle| && BeginsWith(word, needle) {
      assert ToLowerChar(word[0]) == ToLowerChar(needle[0]);
      SpacesSkipped(spaces, word + rest);
      assert s[|spaces|..] == word + rest && (word + rest)[|needle|..] == rest;
    }
  }

  predicate IsAllSpace(s: string)
  {
    forall c | c in s :: IsSpace(c)
  }

  lemma {:induction false} SpacesAre(s: string)
    ensures IsAllSpace(s[..Spaces(s)])
  {
    if s != [] && IsSpace(s[0]) {
      SpacesAre(s[1..]);
      assert s[..Spaces(s)] == [s[0]] + s[1..][..Spaces(s[1..])];
    }
  }

  lemma {:induction false} SpacesSkipped(spaces: string, t: string)
    requires IsAllSpace(spaces) && (t == [] || !IsSpace(t[0]))
    ensures Spaces(spaces + t) == |spaces|
  {
    if spaces == [] {
      assert spaces + t == t;
    } else {
      assert spaces[0] in spaces && (spaces + t)[1..] == spaces[1..] + t;
      SpacesSkipped(spaces[1..], t);
    }
  }

  method IsStartsFromString(s: string, needle: string) returns (starts: bool, rest: string)
    ensures (starts, rest) == StartsFrom(s, needle)
  {
    var startPos := SkipSpace(s);
    if BeginsWith(s[startPos..], needle) {
      return true, s[startPos + |needle|..];
    }
    return false, s[startPos..];
  }

  /** ^CHARACTER SET (\w+)\b\s* and ^COLLATE (\w+)\b\s* */
  function NamedOption(s: string, head: string): (string, string)
  {
    if !BeginsWith(s, head) then ([], s)
    else
      var t := s[|head|..];
      var n := Word(t);
      if n == 0 then ([], s) else (t[..n], t[n + PatternSpaces(t[n..])..])
  }

  function AllowNull(s: string): (bool, string)
  {
    var not := StartsFrom(s, "NOT NULL");
    if not.0 then (false, not.1) else (true, StartsFrom(not.1, "NULL").1)
  }

  method DetectAllowNull(s: string) returns (allow: bool, rest: string)
    ensures (allow, rest) == AllowNull(s)
  {
    var starts;
    starts, rest := IsStartsFromString(s, "NOT NULL");
    if starts {
      allow := false;
    } else {
      starts, rest := IsStartsFromString(rest, "NULL");
      allow := true;
    }
  }

  // ---- quoted text ----

  /** The end of a string literal, from a position in it. A doubled quote makes the scan
      go on three characters later, so the character behind it is not looked at. */
  function Stop(s: string, i: nat): (n: Option<nat>)
    ensures n.Some? ==> i <= n.value < |s| && s[n.value] == QUOTE && NextChar(s, n.value) != QUOTE
    decreases |s| - i
  {
    if i >= |s| then None
    else if s[i] != QUOTE then Stop(s, i + 1)
    else if NextChar(s, i) != QUOTE then Some(i)
    else Stop(s, i + 3)
  }

  /** The contents of the first string literal as they are written, and what follows it. */
  function QuotedStr(s: string): (Option<string>, string)
  {
    var start := IndexOf(s, QUOTE);
    if start == -1 then (None, s)
    else
      var stop := Stop(s, start + 1);
      if stop.None? then (None, s) else (Some(s[start + 1..stop.value]), s[stop.value + 1..])
  }

  method MatchQuotedStr(s: string) returns (match_: Option<string>, rest: string)
    ensures (match_, rest) == QuotedStr(s)
  {
    var start, stop := -1, -1;
    var inString := false;
    var i := 0;
    while i < |s|
      invariant 0 <= i && -1 <= start < |s| && stop == -1
      invariant !inString ==> start == -1 && i <= |s| && forall k | 0 <= k < i :: s[k] != QUOTE
      invariant inString ==>
                  start >= 0 && start == IndexOf(s, QUOTE) && start + 1 <= i && Stop(s, start + 1) == Stop(s, i)
      decreases |s| - i
    {
      var curChar := s[i];
      if curChar == QUOTE {
        if !inString {
          inString := true;
          start := i;
          FirstQuote(s, i);
        } else {
          var nextChar := if i + 1 < |s| then s[i + 1] else NUL;
          if nextChar != QUOTE {
            stop := i;
            break;
          } else {
            i := i + 2;
          }
        }
      }
      i := i + 1;
    }
    var matchLen := stop - start - 1;
    if matchLen >= 0 {
      match_, rest := Some(s[start + 1..stop]), s[stop + 1..];
    } else {
      match_, rest := None, s;
      if start == -1 {
        var k := IndexOf(s, QUOTE);
        assert k == -1;
      }
    }
  }

  lemma FirstQuote(s: string, i: nat)
    requires i < |s| && s[i] == QUOTE && forall k | 0 <= k < i :: s[k] != QUOTE
    ensures IndexOf(s, QUOTE) == i
  {
  }

  // ---- the default ----

  /** (\(\d+\))? */
  function OptionalLength(s: string): (n: nat)
    ensures n <= |s|
  {
    if s == [] || s[0] != '(' then 0
    else
      var n := Digits(s[1..]);
      if n > 0 && n + 1 < |s| && s[n + 1] == ')' then n + 2 else 0
  }

  function CurTSAt(s: string): (n: Option<nat>)
    ensures n.Some? ==> n.value <= |s|
  {
    if BeginsWith(s, CURRENT_TIMESTAMP) then Some(17 + OptionalLength(s[17..])) else None
  }

  /** \s+WORD */
  function SpacedWord(s: string, word: string): (n: Option<nat>)
    ensures n.Some? ==> n.value <= |s|
  {
    var n := PatternSpaces(s);
    if n > 0 && BeginsWith(s[n..], word) then Some(n + |word|) else None
  }

  /** \s+ONE\s+AFTER\s+ANOTHER, from word i on */
  function SpacedWords(s: string, words: seq<string>, i: nat): (n: Option<nat>)
    requires i <= |words|
    ensures n.Some? ==> n.value <= |s|
    decreases |words| - i
  {
    if i == |words| then Some(0)
    else
      var a := SpacedWord(s, words[i]);
      if a.None? then None
      else
        var b := SpacedWords(s[a.value..], words, i + 1);
        if b.None? then None else Some(a.value + b.value)
  }

  const ON_UPDATE: seq<string> := ["ON", "UPDATE", CURRENT_TIMESTAMP]

  /** \s+ON\s+UPDATE\s+CURRENT_TIMESTAMP(\(\d+\))? */
  function OnUpdateAt(s: string): (n: Option<nat>)
    ensures n.Some? ==> n.value <= |s|
  {
    var n := SpacedWords(s, ON_UPDATE, 0);
    if n.None? then None else Some(n.value + OptionalLength(s[n.value..]))
  }

  // The patterns are searched for anywhere in the text; the length of the first match counts.
  function FindCurTS(s: string): (n: Option<nat>)
    ensures n.Some? ==> n.value <= |s|
  {
    if CurTSAt(s).Some? then CurTSAt(s)
    else if s == [] then None
    else FindCurTS(s[1..])
  }

  function FindOnUpdate(s: string): (n: Option<nat>)
    ensures n.Some? ==> n.value <= |s|
  {
    if OnUpdateAt(s).Some? then OnUpdateAt(s)
    else if s == [] then None
    else FindOnUpdate(s[1..])
  }

  /** A match, wherever it is, is cut off at the front. */
  function OnUpdateCurTs(s: string): (bool, string)
  {
    var n := FindOnUpdate(s);
    if n.Some? then (true, s[n.value..]) else (false, s)
  }

  /** What is found of a default: its kind, its text and what follows. */
  datatype Found = Found(defaultType: DefaultType, text: string, rest: string)

  predicate IsLiteral(s: string)
  {
    StartsWith(s, "'") || StartsWith(s, "b'") || StartsWith(s, "('")
  }

  function LiteralDefault(s: string): Found
  {
    var quoted := QuotedStr(Trimmed(s));
    var onUpdate := OnUpdateCurTs(Trimmed(quoted.1));
    Found(if onUpdate.0 then TextUpdateTS else if quoted.0.Some? then TextDefault else NoDefault,
          if quoted.0.Some? then quoted.0.value else [], onUpdate.1)
  }

  function WordDefault(s: string): Found
  {
    var isNull := StartsFrom(s, "NULL");
    if isNull.0 then
      var onUpdate := OnUpdateCurTs(isNull.1);
      Found(if onUpdate.0 then NullUpdateTS else NullDefault, [], onUpdate.1)
    else
      var ts := FindCurTS(isNull.1);
      if ts.Some? then
        var onUpdate := OnUpdateCurTs(isNull.1[ts.value..]);
        Found(if onUpdate.0 then CurTSUpdateTS else CurTS, [], onUpdate.1)
      else
        var n := Word(isNull.1);
        if n > 0 then
          var onUpdate := OnUpdateCurTs(isNull.1[n..]);
          Found(if onUpdate.0 then TextUpdateTS else TextDefault, isNull.1[..n], onUpdate.1)
        else
          Found(NoDefault, [], isNull.1)
  }

  function Default(s: string): Found
  {
    var inc := StartsFrom(s, "AUTO_INCREMENT");
    if inc.0 then Found(AutoInc, [], inc.1)
    else
      var next := StartsFrom(inc.1, "DEFAULT nextval(");
      if next.0 then Found(AutoInc, [], next.1)
      else
        var def := StartsFrom(next.1, "DEFAULT ");
        if !def.0 then Found(NoDefault, [], def.1)
        else if IsLiteral(def.1) then LiteralDefault(def.1)
        else WordDefault(def.1)
  }

  method CheckForOnUpdateCurTs(s: string) returns (found: bool, rest: string)
    ensures (found, rest) == OnUpdateCurTs(s)
  {
    found, rest := false, s;
    var n := FindOnUpdate(s);
    if n.Some? {
      rest := s[n.value..];
      found := true;
    }
  }

  method ParseDefault(s: string) returns (defaultType: DefaultType, text: string, rest: string)
    ensures Found(defaultType, text, rest) == Default(s)
  {
    defaultType, text := NoDefault, [];
    var isAutoIncrement;
    isAutoIncrement, rest := IsStartsFromString(s, "AUTO_INCREMENT");
    if !isAutoIncrement {
      isAutoIncrement, rest := IsStartsFromString(rest, "DEFAULT nextval(");
    }
    if isAutoIncrement {
      defaultType := AutoInc;
      return;
    }
    var hasDefault;
    hasDefault, rest := IsStartsFromString(rest, "DEFAULT ");
    if !hasDefault {
      return;
    }
    if IsLiteral(rest) {
      var quoted, onUpdate;
      quoted, rest := MatchQuotedStr(Trimmed(rest));
      if quoted.Some? {
        text, defaultType := quoted.value, TextDefault;
      }
      onUpdate, rest := CheckForOnUpdateCurTs(Trimmed(rest));
      if onUpdate {
        defaultType := TextUpdateTS;
      }
    } else {
      defaultType, text, rest := ParseWordDefault(rest);
    }
  }

  method ParseWordDefault(s: string) returns (defaultType: DefaultType, text: string, rest: string)
    ensures Found(defaultType, text, rest) == WordDefault(s)
  {
    defaultType, text := NoDefault, [];
    var starts, onUpdate;
    starts, rest := IsStartsFromString(s, "NULL");
    if starts {
      defaultType := NullDefault;
      onUpdate, rest := CheckForOnUpdateCurTs(rest);
      if onUpdate {
        defaultType := NullUpdateTS;
      }
      return;
    }
    var matchCurTS := FindCurTS(rest);
    if matchCurTS.Some? {
      defaultType := CurTS;
      onUpdate, rest := CheckForOnUpdateCurTs(rest[matchCurTS.value..]);
      if onUpdate {
        defaultType := CurTSUpdateTS;
      }
      return;
    }
    var firstWord := Word(rest);
    if firstWord > 0 {
      defaultType, text := TextDefault, rest[..firstWord];
      onUpdate, rest := CheckForOnUpdateCurTs(rest[firstWord..]);
      if onUpdate {
        defaultType := TextUpdateTS;
      }
    }
  }

  // ---- the comment ----

  function Comment(s: string): string
  {
    var head := StartsFrom(s, "COMMENT");
    if !head.0 then []
    else
      var quoted := QuotedStr(Trimmed(head.1));
      if quoted.0.Some? then quoted.0.value else []
  }

  method ParseComment(s: string) returns (comment: string)
    ensures comment == Comment(s)
  {
    comment := [];
    var starts, rest := IsStartsFromString(s, "COMMENT");
    if starts {
      var quoted;
      quoted, rest := MatchQuotedStr(Trimmed(rest));
      if quoted.Some? {
        comment := quoted.value;
      }
    }
  }

  // ---- a line ----

  /** The flags, options and NULL of a column, after its type. */
  function Attributes(id: nat, name: string, dataType: DataType, s: string): Column
  {
    var len := LengthSet(s);
    var uns := StartsFrom(len.1, "UNSIGNED");
    var zero := StartsFrom(uns.1, "ZEROFILL");
    var charset := NamedOption(Trimmed(zero.1), "CHARACTER SET ");
    var collation := NamedOption(Trimmed(charset.1), "COLLATE ");
    var nullable := AllowNull(Trimmed(collation.1));
    var def := Default(nullable.1);
    Column(id, name, dataType, len.0, uns.0, nullable.0, zero.0, def.defaultType, def.text, Comment(def.rest),
      charset.0, collation.0)
  }

  /** The column of a line, unless no name is found. */
  function ParsedColumn(line: string, id: nat, types: seq<DataType>, q: char): Option<Column>
  {
    var name := Id(line, q);
    if name.0 == [] then None
    else
      var dataType := TypeByName(name.1, types);
      Some(Attributes(id, name.0, dataType.0, dataType.1))
  }

  method ParseColumn(line: string, id: nat, types: seq<DataType>, q: char) returns (column: Option<Column>)
    ensures column == ParsedColumn(line, id, types, q)
  {
    var named := Id(line, q);
    var name, rest := named.0, named.1;
    if name == [] {
      return None;
    }
    var dataType, lengthSet, isUnsigned, zeroFill, allowNull, defaultType, defaultText, comment;
    dataType, rest := ExtractDataTypeByName(rest, types);
    lengthSet, rest := ExtractLengthSet(rest);
    isUnsigned, rest := IsStartsFromString(rest, "UNSIGNED");
    zeroFill, rest := IsStartsFromString(rest, "ZEROFILL");
    var charset := NamedOption(Trimmed(rest), "CHARACTER SET ");
    var collation := NamedOption(Trimmed(charset.1), "COLLATE ");
    allowNull, rest := DetectAllowNull(Trimmed(collation.1));
    defaultType, defaultText, rest := ParseDefault(rest);
    comment := ParseComment(rest);
    column := Some(Column(id, name, dataType, lengthSet, isUnsigned, allowNull, zeroFill, defaultType, defaultText,
                          comment, charset.0, collation.0));
  }
}
