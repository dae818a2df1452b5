/** SentencesParser::parseToTokens: cuts a line of SQL into highlighter tokens.

    The scanner can be entered in the middle of a block comment, a string or a
    quoted identifier, which is how an editor resumes it on the next line.
 */
module SentenceTokenizer {
  import opened QtStrings

  datatype TokenType =
    | NoToken
    | Text
    | SingleLineComment
    | MultipleLineComment
    | QuotedString
    | DoubleQuotedString
    | QuotedIdentifier

  datatype Token = Token(startIndex: int, len: int, kind: TokenType, leftOpen: bool, rightOpen: bool) {
    function End(): int { startIndex + len }
  }

  // The token being collected, before its end is known.
  datatype Draft = Draft(startIndex: int, kind: TokenType, leftOpen: bool)

  datatype Region = Code | InLineComment | InBlockComment | Quoted(encloser: char)

  datatype Mode = Mode(region: Region, inEscape: bool, cur: Option<Draft>)

  predicate IsEncloser(c: char)
  {
    c == '"' || c == '\'' || c == '`'
  }

  function KindOfEncloser(c: char): TokenType
  {
    if c == '`' then QuotedIdentifier else if c == '"' then DoubleQuotedString else QuotedString
  }

  predicate StartsLineComment(c: char, next: char)
  {
    c == '#' || (c == '-' && next == '-')
  }

  /** The kinds a rightOpen token can have, hence the ways to resume a scan. */
  predicate IsResumable(kind: TokenType)
  {
    kind != Text && kind != SingleLineComment
  }

  function RegionOfOpenType(kind: TokenType): Region
  {
    match kind
    case MultipleLineComment => InBlockComment
    case QuotedString => Quoted('\'')
    case DoubleQuotedString => Quoted('"')
    case QuotedIdentifier => Quoted('`')
    case _ => Code
  }

  function StartMode(leftOpenType: TokenType): Mode
  {
    Mode(RegionOfOpenType(leftOpenType), false,
         if leftOpenType == NoToken then None else Some(Draft(0, leftOpenType, true)))
  }

  /** The draft as a finished token, or nothing when it is empty. */
  function Close(d: Draft, endIndex: int): seq<Token>
  {
    if endIndex - d.startIndex > 0
    then [Token(d.startIndex, endIndex - d.startIndex, d.kind, d.leftOpen, false)]
    else []
  }

  datatype StepResult = StepResult(mode: Mode, out: seq<Token>, skip: nat)

  /** What one turn of the scanning loop does at index i. */
  function Step(m: Mode, c: char, next: char, i: int): StepResult
  {
    var d := if m.cur.None? then Draft(i, Text, false) else m.cur.value;
    var escape := !m.inEscape && c == '\\';
    match m.region
    case Code =>
      if StartsLineComment(c, next) then
        StepResult(Mode(InLineComment, escape, Some(Draft(i, SingleLineComment, false))), Close(d, i), 0)
      else if c == '/' && next == '*' then
        StepResult(Mode(InBlockComment, escape, Some(Draft(i, MultipleLineComment, false))), Close(d, i), 1)
      else if IsEncloser(c) && !m.inEscape then
        StepResult(Mode(Quoted(c), escape, Some(Draft(i, KindOfEncloser(c), false))), Close(d, i), 0)
      else if c == LF && next != LF && d.kind == SingleLineComment then
        StepResult(Mode(Code, escape, None), Close(d, i), 0)
      else
        StepResult(Mode(Code, escape, Some(d)), [], 0)
    case InLineComment =>
      if c == LF && next != LF then
        if d.kind == SingleLineComment
        then StepResult(Mode(Code, escape, None), Close(d, i), 0)
        else StepResult(Mode(Code, escape, Some(d)), [], 0)
      else
        StepResult(Mode(InLineComment, escape, Some(d)), [], 0)
    case InBlockComment =>
      if c == '*' && next == '/' then
        if d.kind == MultipleLineComment
        then StepResult(Mode(Code, escape, None), Close(d, i + 2), 1)
        else StepResult(Mode(Code, escape, Some(d)), [], 1)
      else if c == LF && next != LF && d.kind == SingleLineComment then
        StepResult(Mode(InBlockComment, escape, None), Close(d, i), 0)
      else
        StepResult(Mode(InBlockComment, escape, Some(d)), [], 0)
    case Quoted(encloser) =>
      if c == encloser && IsEncloser(c) && !m.inEscape then
        StepResult(Mode(Code, escape, None), Close(d, i + 1), 0)
      else if c == LF && next != LF && d.kind == SingleLineComment then
        StepResult(Mode(m.region, escape, None), Close(d, i), 0)
      else
        StepResult(Mode(m.region, escape, Some(d)), [], 0)
  }

  /** What is left to report when the text ends. */
  function Finish(m: Mode, allLen: int): seq<Token>
  {
    if m.cur.Some? && allLen - m.cur.value.startIndex > 0 then
      var d := m.cur.value;
      [Token(d.startIndex, allLen - d.startIndex, d.kind, d.leftOpen,
             m.region.InBlockComment? || m.region.Quoted?)]
    else
      []
  }

  /** The tokens reported from index i on. */
  function TokensFrom(m: Mode, s: string, i: nat): seq<Token>
    requires i <= |s|
    decreases |s| - i
  {
    if i == |s| then
      Finish(m, |s|)
    else
      var r := Step(m, s[i], NextChar(s, i), i);
      Prepend(r.out, TokensFrom(r.mode, s, i + 1 + r.skip))
  }

  function TokensOf(s: string, leftOpenType: TokenType): seq<Token>
  {
    TokensFrom(StartMode(leftOpenType), s, 0)
  }

  // The scanner's flags, as its loop keeps them.
  datatype Flags = Flags(inString: bool, inLineComment: bool, inBigComment: bool,
                         inEscape: bool, lastStringEncloser: char)
  {
    ghost predicate AtMostOneOpen()
    {
      !(inString && inLineComment) && !(inString && inBigComment) && !(inLineComment && inBigComment)
    }

    ghost function ToMode(cur: Option<Draft>): Mode
    {
      Mode(if inString then Quoted(lastStringEncloser)
           else if inLineComment then InLineComment
           else if inBigComment then InBlockComment
           else Code,
           inEscape, cur)
    }
  }

  /** One turn of the loop: the tokens it reports and the flags, draft and index it leaves. */
  method ScanChar(f: Flags, token: Option<Draft>, curChar: char, nextChar: char, index: int)
    returns (g: Flags, curToken: Option<Draft>, i: int, out: seq<Token>)
    requires f.AtMostOneOpen()
    ensures g.AtMostOneOpen()
    ensures i >= index
    ensures Step(f.ToMode(token), curChar, nextChar, index) == StepResult(g.ToMode(curToken), out, i - index)
  {
    var inString, inLineComment, inBigComment := f.inString, f.inLineComment, f.inBigComment;
    var lastStringEncloser := f.lastStringEncloser;
    curToken, i, out := token, index, [];

    if curToken.None? {
      curToken := Some(Draft(i, Text, false));
    }

    // line comment
    if !inLineComment && !inBigComment && !inString {
      inLineComment := StartsLineComment(curChar, nextChar);
      if inLineComment {
        out := Close(curToken.value, i);
        curToken := Some(Draft(i, SingleLineComment, false));
      }
    }

    // block comment
    if !inLineComment && !inBigComment && !inString {
      if curChar == '/' && nextChar == '*' {
        inBigComment := true;
        out := Close(curToken.value, i);
        curToken := Some(Draft(i, MultipleLineComment, false));
        i := i + 1;
      }
    }
    if inBigComment && !inLineComment && !inString {
      if curChar == '*' && nextChar == '/' {
        inBigComment := false;
        if curToken.Some? && curToken.value.kind == MultipleLineComment {
          out := Close(curToken.value, i + 2);
          curToken := None;
        }
        i := i + 1;
      }
    }

    // string or identifier
    if !f.inEscape && !inLineComment && !inBigComment {
      if IsEncloser(curChar) {
        if !inString || curChar == lastStringEncloser {
          inString := !inString;
          lastStringEncloser := curChar;
          if curToken.Some? {
            out := Close(curToken.value, i + (if inString then 0 else 1));
            curToken := None;
          }
          if inString {
            curToken := Some(Draft(i, KindOfEncloser(curChar), false));
          }
        }
      }
    }

    // new line
    if curChar == LF && nextChar != LF {
      inLineComment := false;
      if curToken.Some? && curToken.value.kind == SingleLineComment {
        out := Close(curToken.value, i);
        curToken := None;
      }
    }

    g := Flags(inString, inLineComment, inBigComment, !f.inEscape && curChar == '\\', lastStringEncloser);
  }

  /** The flags and draft a scan starts with. */
  method EnterScan(leftOpenType: TokenType) returns (flags: Flags, curToken: Option<Draft>)
    ensures flags.AtMostOneOpen() && flags.ToMode(curToken) == StartMode(leftOpenType)
  {
    flags := Flags(false, false, false, false, NUL);
    curToken := None;
    if leftOpenType != NoToken {
      curToken := Some(Draft(0, leftOpenType, true));
      match leftOpenType
      case MultipleLineComment => flags := flags.(inBigComment := true);
      case QuotedString => flags := flags.(inString := true, lastStringEncloser := '\'');
      case DoubleQuotedString => flags := flags.(inString := true, lastStringEncloser := '"');
      case QuotedIdentifier => flags := flags.(inString := true, lastStringEncloser := '`');
      case _ =>
    }
  }

  /** The scanner in the source's own form: one loop over an index, the flags and
      the token being collected. */
  method ParseToTokens(sentence: string, leftOpenType: TokenType) returns (list: seq<Token>)
    ensures list == TokensOf(sentence, leftOpenType)
  {
    list := [];
    var allLen := |sentence|;
    var flags, curToken := EnterScan(leftOpenType);

    var i := 0;
    while i < allLen
      invariant 0 <= i <= allLen
      invariant flags.AtMostOneOpen()
      invariant list + TokensFrom(flags.ToMode(curToken), sentence, i) == TokensOf(sentence, leftOpenType)
    {
      ghost var before := list;
      var out;
      flags, curToken, i, out := ScanChar(flags, curToken, sentence[i], NextChar(sentence, i), i);
      list := list + out;
      i := i + 1;
      PrependAppends(before, out, TokensFrom(flags.ToMode(curToken), sentence, i));
    }

    if curToken.Some? {
      var d := curToken.value;
      if allLen - d.startIndex > 0 {
        list := list + [Token(d.startIndex, allLen - d.startIndex, d.kind, d.leftOpen,
                              flags.inBigComment || flags.inString)];
      }
    }
  }
}
