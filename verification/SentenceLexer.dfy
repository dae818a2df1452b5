/** A token-at-a-time reading of SQL text: the reference the flag-driven scanner
    is compared with, and what it says about how tokens cover the text.
 */
module SentenceLexer {
  import opened QtStrings
  import opened SentenceTokenizer

  // ---- the marks, written out for a position in the text ----

  predicate OpensLineComment(s: string, i: nat)
    requires i < |s|
  {
    s[i] == '#' || (s[i] == '-' && i + 1 < |s| && s[i + 1] == '-')
  }

  predicate OpensBlockComment(s: string, i: nat)
    requires i < |s|
  {
    s[i] == '/' && i + 1 < |s| && s[i + 1] == '*'
  }

  predicate OpensQuoted(s: string, i: nat)
    requires i < |s|
  {
    s[i] == '\'' || s[i] == '"' || s[i] == '`'
  }

  /** A line comment stops at the first LF that no other LF follows. */
  function LineCommentEnd(s: string, i: nat): (e: nat)
    requires i <= |s|
    ensures i <= e <= |s|
    ensures e < |s| ==> s[e] == LF
    decreases |s| - i
  {
    if i == |s| || (s[i] == LF && !(i + 1 < |s| && s[i + 1] == LF)) then i else LineCommentEnd(s, i + 1)
  }

  /** The index after the first closing mark at or after i. */
  function BlockCommentEnd(s: string, i: nat): (e: Option<nat>)
    ensures e.Some? ==> i + 2 <= e.value <= |s| && s[e.value - 1] == '/'
    decreases |s| - i
  {
    if i + 1 >= |s| then None
    else if s[i] == '*' && s[i + 1] == '/' then Some(i + 2)
    else BlockCommentEnd(s, i + 1)
  }

  /** The index after the first unescaped encloser at or after i. */
  function QuoteEnd(s: string, i: nat, encloser: char, escaped: bool): (e: Option<nat>)
    requires i <= |s|
    ensures e.Some? ==> i < e.value <= |s| && s[e.value - 1] == encloser
    decreases |s| - i
  {
    if i == |s| then None
    else if s[i] == encloser && !escaped then Some(i + 1)
    else QuoteEnd(s, i + 1, encloser, !escaped && s[i] == '\\')
  }

  predicate OpensToken(s: string, i: nat, escaped: bool)
    requires i < |s|
  {
    OpensLineComment(s, i) || OpensBlockComment(s, i) || (OpensQuoted(s, i) && !escaped)
  }

  /** Plain text stops where a comment, a string or an identifier opens. */
  function TextEnd(s: string, i: nat, escaped: bool): (e: nat)
    requires i <= |s|
    ensures i <= e <= |s|
    decreases |s| - i
  {
    if i == |s| || OpensToken(s, i, escaped) then i
    else TextEnd(s, i + 1, !escaped && s[i] == '\\')
  }

  // One token as read at once: where it ends, where reading goes on, and whether the text ran out first.
  datatype Lexeme = Lexeme(kind: TokenType, end: nat, next: nat, open: bool)

  function Closed(s: string, kind: TokenType, e: Option<nat>): Lexeme
  {
    if e.Some? then Lexeme(kind, e.value, e.value, false) else Lexeme(kind, |s|, |s|, true)
  }

  /** The token that starts at p, where no token is open. */
  function LexemeAt(s: string, p: nat): (l: Lexeme)
    requires p < |s|
    ensures p < l.end <= l.next <= |s|
  {
    if OpensLineComment(s, p) then
      var e := LineCommentEnd(s, p + 1);
      Lexeme(SingleLineComment, e, if e < |s| then e + 1 else e, false)
    else if OpensBlockComment(s, p) then
      Closed(s, MultipleLineComment, BlockCommentEnd(s, p + 2))
    else if OpensQuoted(s, p) then
      Closed(s, KindOfEncloser(s[p]), QuoteEnd(s, p + 1, s[p], false))
    else
      var e := TextEnd(s, p + 1, s[p] == '\\');
      Lexeme(Text, e, e, false)
  }

  /** The rest of a token of the given kind that an earlier line left open. */
  function ResumedLexeme(s: string, kind: TokenType): (l: Lexeme)
    requires IsResumable(kind) && kind != NoToken && s != []
    ensures 0 < l.end <= l.next <= |s|
  {
    match kind
    case MultipleLineComment => Closed(s, kind, BlockCommentEnd(s, 0))
    case QuotedString => Closed(s, kind, QuoteEnd(s, 0, '\'', false))
    case DoubleQuotedString => Closed(s, kind, QuoteEnd(s, 0, '"', false))
    case QuotedIdentifier => Closed(s, kind, QuoteEnd(s, 0, '`', false))
  }

  function ToToken(l: Lexeme, start: nat, leftOpen: bool): Token
  {
    Token(start, l.end - start, l.kind, leftOpen, l.open)
  }

  /** The tokens of s from position p, where no token is open. */
  function Lex(s: string, p: nat): seq<Token>
    requires p <= |s|
    decreases |s| - p
  {
    if p == |s| then []
    else var l := LexemeAt(s, p); [ToToken(l, p, false)] + Lex(s, l.next)
  }

  /** The tokens of a text entered while a token of the given kind is open. */
  function LexResumed(s: string, kind: TokenType): seq<Token>
    requires IsResumable(kind)
  {
    if kind == NoToken || s == [] then Lex(s, 0)
    else var l := ResumedLexeme(s, kind); [ToToken(l, 0, true)] + Lex(s, l.next)
  }

  // ---- the scanner reads the same tokens ----

  /** What the scanner reports from p on when no token is open there. */
  function Closing(s: string, p: nat): seq<Token>
    requires p <= |s|
  {
    TokensFrom(Mode(Code, false, None), s, p)
  }

  lemma {:induction false} LineCommentRun(s: string, i: nat, escaped: bool, start: nat)
    requires start < i <= |s|
    ensures var e := LineCommentEnd(s, i);
            TokensFrom(Mode(InLineComment, escaped, Some(Draft(start, SingleLineComment, false))), s, i)
            == [Token(start, e - start, SingleLineComment, false, false)] + Closing(s, if e < |s| then e + 1 else e)
    decreases |s| - i
  {
    var m := Mode(InLineComment, escaped, Some(Draft(start, SingleLineComment, false)));
    if i < |s| {
      var r := Step(m, s[i], NextChar(s, i), i);
      if s[i] == LF && NextChar(s, i) != LF {
        assert r == StepResult(Mode(Code, false, None), Close(m.cur.value, i), 0);
      } else {
        assert r == StepResult(Mode(InLineComment, r.mode.inEscape, m.cur), [], 0);
        LineCommentRun(s, i + 1, r.mode.inEscape, start);
      }
    }
  }

  lemma {:induction false} BlockCommentRun(s: string, i: nat, escaped: bool, start: nat, leftOpen: bool)
    requires start <= i <= |s| && (start < i || leftOpen) && start < |s|
    ensures var l := Closed(s, MultipleLineComment, BlockCommentEnd(s, i));
            TokensFrom(Mode(InBlockComment, escaped, Some(Draft(start, MultipleLineComment, leftOpen))), s, i)
            == [ToToken(l, start, leftOpen)] + Closing(s, l.next)
    decreases |s| - i
  {
    if i < |s| && !(s[i] == '*' && NextChar(s, i) == '/') {
      BlockCommentRun(s, i + 1, !escaped && s[i] == '\\', start, leftOpen);
    }
  }

  lemma {:induction false} QuoteRun(s: string, i: nat, encloser: char, escaped: bool, start: nat, leftOpen: bool)
    requires start <= i <= |s| && start < |s| && IsEncloser(encloser)
    ensures var l := Closed(s, KindOfEncloser(encloser), QuoteEnd(s, i, encloser, escaped));
            TokensFrom(Mode(Quoted(encloser), escaped, Some(Draft(start, KindOfEncloser(encloser), leftOpen))), s, i)
            == [ToToken(l, start, leftOpen)] + Closing(s, l.next)
    decreases |s| - i
  {
    if i < |s| && !(s[i] == encloser && !escaped) {
      QuoteRun(s, i + 1, encloser, !escaped && s[i] == '\\', start, leftOpen);
    }
  }

  lemma {:induction false} TextRun(s: string, i: nat, escaped: bool, start: nat)
    requires start < i <= |s|
    ensures var e := TextEnd(s, i, escaped);
            TokensFrom(Mode(Code, escaped, Some(Draft(start, Text, false))), s, i)
            == [Token(start, e - start, Text, false, false)] + Closing(s, e)
    decreases |s| - i
  {
    if i < |s| && !OpensToken(s, i, escaped) {
      TextGoesOn(s, i, escaped, start);
      TextRun(s, i + 1, !escaped && s[i] == '\\', start);
    } else {
      TextStopsAt(s, i, escaped, start);
    }
  }

  lemma TextGoesOn(s: string, i: nat, escaped: bool, start: nat)
    requires start < i < |s| && !OpensToken(s, i, escaped)
    ensures var d := Some(Draft(start, Text, false));
            TokensFrom(Mode(Code, escaped, d), s, i) == TokensFrom(Mode(Code, !escaped && s[i] == '\\', d), s, i + 1)
  {
  }

  lemma TextStopsAt(s: string, i: nat, escaped: bool, start: nat)
    requires start < i <= |s| && (i < |s| ==> OpensToken(s, i, escaped))
    ensures TokensFrom(Mode(Code, escaped, Some(Draft(start, Text, false))), s, i)
            == [Token(start, i - start, Text, false, false)] + Closing(s, i)
  {
  }

  /** Where nothing is open, the scanner reports one token of the reference reading. */
  lemma OneToken(s: string, p: nat)
    requires p < |s|
    ensures var l := LexemeAt(s, p); Closing(s, p) == [ToToken(l, p, false)] + Closing(s, l.next)
  {
    if OpensLineComment(s, p) {
      LineCommentRun(s, p + 1, false, p);
    } else if OpensBlockComment(s, p) {
      BlockCommentRun(s, p + 2, false, p, false);
    } else if OpensQuoted(s, p) {
      QuoteRun(s, p + 1, s[p], false, p, false);
    } else {
      TextRun(s, p + 1, s[p] == '\\', p);
    }
  }

  lemma {:induction false} CodeRun(s: string, p: nat)
    requires p <= |s|
    ensures Closing(s, p) == Lex(s, p)
    decreases |s| - p
  {
    if p < |s| {
      OneToken(s, p);
      CodeRun(s, LexemeAt(s, p).next);
    }
  }

  /** The character-level scanner reports exactly the tokens of the reference reading. */
  lemma ScannerReadsLexemes(s: string, kind: TokenType)
    requires IsResumable(kind)
    ensures TokensOf(s, kind) == LexResumed(s, kind)
  {
    if kind == NoToken {
      CodeRun(s, 0);
    } else if s != [] {
      match kind {
        case MultipleLineComment => BlockCommentRun(s, 0, false, 0, true);
        case QuotedString => QuoteRun(s, 0, '\'', false, 0, true);
        case DoubleQuotedString => QuoteRun(s, 0, '"', false, 0, true);
        case QuotedIdentifier => QuoteRun(s, 0, '`', false, 0, true);
      }
      CodeRun(s, ResumedLexeme(s, kind).next);
    }
  }

  // ---- what kind of token begins where ----

  /** The kind of a token that begins at p, by the characters there; anything else is text. */
  predicate BeginsAs(kind: TokenType, s: string, p: int)
  {
    && 0 <= p < |s| && kind != NoToken
    && (kind == SingleLineComment <==> s[p] == '#' || (s[p] == '-' && p + 1 < |s| && s[p + 1] == '-'))
    && (kind == MultipleLineComment <==> s[p] == '/' && p + 1 < |s| && s[p + 1] == '*')
    && (kind == QuotedString <==> s[p] == '\'')
    && (kind == DoubleQuotedString <==> s[p] == '"')
    && (kind == QuotedIdentifier <==> s[p] == '`')
  }

  lemma {:induction false} LexKinds(s: string, p: nat)
    requires p <= |s|
    ensures forall t | t in Lex(s, p) :: !t.leftOpen && BeginsAs(t.kind, s, t.startIndex)
    decreases |s| - p
  {
    if p < |s| {
      var l := LexemeAt(s, p);
      assert BeginsAs(l.kind, s, p);
      LexKinds(s, l.next);
    }
  }

  /** Every token has the kind its first characters say, except that a scan entered with an open
      type continues that one first. */
  lemma TokenKinds(s: string, kind: TokenType)
    requires IsResumable(kind)
    ensures var ts := TokensOf(s, kind);
            && (kind != NoToken && s != []
                ==> ts != [] && ts[0].leftOpen && ts[0].startIndex == 0 && ts[0].kind == kind)
            && forall j | (if kind != NoToken && s != [] then 1 else 0) <= j < |ts| ::
                 !ts[j].leftOpen && BeginsAs(ts[j].kind, s, ts[j].startIndex)
  {
    ScannerReadsLexemes(s, kind);
    if kind == NoToken || s == [] {
      LexKinds(s, 0);
    } else {
      var rest := Lex(s, ResumedLexeme(s, kind).next);
      LexKinds(s, ResumedLexeme(s, kind).next);
      assert forall j | 1 <= j < |rest| + 1 :: LexResumed(s, kind)[j] == rest[j - 1] && rest[j - 1] in rest;
    }
  }

  // ---- how the tokens cover the text ----

  ghost predicate Covers(t: Token, k: int)
  {
    t.startIndex <= k < t.End()
  }

  ghost predicate IsCovered(ts: seq<Token>, k: int)
  {
    exists j | 0 <= j < |ts| :: Covers(ts[j], k)
  }

  ghost predicate EndsCommentAt(t: Token, k: int)
  {
    t.kind == SingleLineComment && t.End() == k
  }

  /** The LF a line comment stops at. */
  ghost predicate IsCommentBreak(ts: seq<Token>, s: string, k: int)
    requires 0 <= k < |s|
  {
    s[k] == LF && exists j | 0 <= j < |ts| :: EndsCommentAt(ts[j], k)
  }

  ghost predicate OrderedWithin(ts: seq<Token>, lo: int, hi: int)
  {
    && (forall j | 0 <= j < |ts| :: lo <= ts[j].startIndex < ts[j].End() <= hi)
    && (forall i, j | 0 <= i < j < |ts| :: ts[i].End() <= ts[j].startIndex)
  }

  /** The tokens lie between p and the end of s, and every index from p on is in a
      token exactly when it is not the LF a line comment stops at. */
  ghost predicate Partitions(ts: seq<Token>, s: string, p: int)
    requires 0 <= p <= |s|
  {
    && OrderedWithin(ts, p, |s|)
    && forall k | p <= k < |s| :: IsCovered(ts, k) != IsCommentBreak(ts, s, k)
  }

  /** One more token at the front covers the text up to where the others start. */
  lemma PartitionCons(l: Lexeme, rest: seq<Token>, s: string, p: nat, leftOpen: bool)
    requires p < l.end <= l.next <= |s|
    requires if l.kind == SingleLineComment && l.end < |s| then l.next == l.end + 1 && s[l.end] == LF
             else l.next == l.end
    requires Partitions(rest, s, l.next)
    ensures Partitions([ToToken(l, p, leftOpen)] + rest, s, p)
  {
    var t := ToToken(l, p, leftOpen);
    OrderedCons(t, rest, l.next, |s|);
    forall k | p <= k < |s|
      ensures IsCovered([t] + rest, k) != IsCommentBreak([t] + rest, s, k)
    {
      if k < l.next {
        PartitionHead(l, t, rest, s, k);
      } else {
        PartitionTail(t, rest, s, k);
      }
    }
  }

  lemma OrderedCons(t: Token, rest: seq<Token>, lo: int, hi: int)
    requires OrderedWithin(rest, lo, hi) && t.startIndex < t.End() <= lo <= hi
    ensures OrderedWithin([t] + rest, t.startIndex, hi)
  {
    var ts := [t] + rest;
    assert ts[0] == t && forall j | 0 < j < |ts| :: ts[j] == rest[j - 1];
  }

  /** In the first token, or at the LF it stops at, the others do not matter. */
  lemma PartitionHead(l: Lexeme, t: Token, rest: seq<Token>, s: string, k: int)
    requires t.startIndex <= k < l.next <= |s| && 0 <= k && t.kind == l.kind && t.End() == l.end <= l.next
    requires l.next == l.end || (l.kind == SingleLineComment && l.next == l.end + 1 && s[l.end] == LF)
    requires OrderedWithin(rest, l.next, |s|)
    ensures IsCovered([t] + rest, k) == (k < l.end)
    ensures IsCommentBreak([t] + rest, s, k) == (k == l.end)
  {
    var ts := [t] + rest;
    assert ts[0] == t && forall j | 0 < j < |ts| :: ts[j] == rest[j - 1];
    if k < l.end {
      assert Covers(ts[0], k);
    } else {
      assert EndsCommentAt(ts[0], k);
    }
  }

  /** At a position the first token neither covers nor stops at, only the others matter. */
  lemma PartitionTail(t: Token, rest: seq<Token>, s: string, k: int)
    requires 0 <= k < |s| && t.End() <= k && !EndsCommentAt(t, k)
    ensures IsCovered([t] + rest, k) == IsCovered(rest, k)
    ensures IsCommentBreak([t] + rest, s, k) == IsCommentBreak(rest, s, k)
  {
    var ts := [t] + rest;
    assert ts[0] == t && forall j | 0 < j < |ts| :: ts[j] == rest[j - 1];
    if IsCovered(rest, k) {
      var j :| 0 <= j < |rest| && Covers(rest[j], k);
      assert Covers(ts[j + 1], k);
    }
    if IsCommentBreak(rest, s, k) {
      var j :| 0 <= j < |rest| && EndsCommentAt(rest[j], k);
      assert EndsCommentAt(ts[j + 1], k);
    }
  }

  lemma {:induction false} LexPartitions(s: string, p: nat)
    requires p <= |s|
    ensures Partitions(Lex(s, p), s, p)
    decreases |s| - p
  {
    if p < |s| {
      var l := LexemeAt(s, p);
      LexPartitions(s, l.next);
      PartitionCons(l, Lex(s, l.next), s, p, false);
    }
  }

  /** Tokens are ordered, non-empty and disjoint, and every index lies in a token
      exactly when it is not the LF right after a line comment. */
  lemma TokenPartition(s: string, kind: TokenType)
    requires IsResumable(kind)
    ensures Partitions(TokensOf(s, kind), s, 0)
  {
    ScannerReadsLexemes(s, kind);
    if kind == NoToken || s == [] {
      LexPartitions(s, 0);
    } else {
      var l := ResumedLexeme(s, kind);
      LexPartitions(s, l.next);
      PartitionCons(l, Lex(s, l.next), s, 0, true);
    }
  }
}
