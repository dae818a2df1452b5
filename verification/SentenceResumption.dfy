/** Tokenising a text line by line: entering each line with the type the previous
    one left open gives the tokens of the whole text.
 */
module SentenceResumption {
  import opened QtStrings
  import opened SentenceTokenizer
  import opened SentenceLexer

  /** The type to resume the next line with: that of a last token left open. */
  function OpenType(ts: seq<Token>): TokenType
  {
    if ts != [] && ts[|ts| - 1].rightOpen then ts[|ts| - 1].kind else NoToken
  }

  function ShiftToken(t: Token, n: int): Token
  {
    t.(startIndex := t.startIndex + n)
  }

  function Shift(ts: seq<Token>, n: int): seq<Token>
  {
    if ts == [] then [] else [ShiftToken(ts[0], n)] + Shift(ts[1..], n)
  }

  lemma ShiftCons(t: Token, ts: seq<Token>, n: int)
    ensures Shift([t] + ts, n) == [ShiftToken(t, n)] + Shift(ts, n)
  {
    assert ([t] + ts)[1..] == ts;
  }

  /** Two tokens that meet at a line boundary and are one token of the whole text. */
  predicate Continues(left: Token, right: Token, n: int)
  {
    && left.End() == n && right.startIndex == 0
    && left.kind == right.kind
    && ((left.rightOpen && right.leftOpen) || (left.kind == Text && !left.rightOpen && !right.leftOpen))
  }

  /** The tokens of a text of length n followed by those of the next one. */
  function Join(ta: seq<Token>, tb: seq<Token>, n: int): seq<Token>
  {
    if ta != [] && tb != [] && Continues(ta[|ta| - 1], tb[0], n) then
      var last := ta[|ta| - 1];
      ta[..|ta| - 1] + [last.(len := last.len + tb[0].len, rightOpen := tb[0].rightOpen)] + Shift(tb[1..], n)
    else
      ta + Shift(tb, n)
  }

  predicate EndsWithBreak(a: string)
  {
    a != [] && a[|a| - 1] == LF
  }

  predicate EndsInLineComment(ts: seq<Token>)
  {
    ts != [] && ts[|ts| - 1].kind == SingleLineComment
  }

  // ---- moving the reference reading behind a prefix ----

  lemma NextCharShift(a: string, b: string, i: nat)
    requires i < |b|
    ensures (a + b)[|a| + i] == b[i] && NextChar(a + b, |a| + i) == NextChar(b, i)
  {
  }

  lemma {:induction false} LineCommentEndShift(a: string, b: string, i: nat)
    requires i <= |b|
    ensures LineCommentEnd(a + b, |a| + i) == |a| + LineCommentEnd(b, i)
    decreases |b| - i
  {
    if i < |b| {
      NextCharShift(a, b, i);
      if !(b[i] == LF && NextChar(b, i) != LF) {
        LineCommentEndShift(a, b, i + 1);
      }
    }
  }

  function ShiftEnd(e: Option<nat>, n: nat): Option<nat>
  {
    if e.Some? then Some(e.value + n) else None
  }

  lemma {:induction false} BlockCommentEndShift(a: string, b: string, i: nat)
    ensures BlockCommentEnd(a + b, |a| + i) == ShiftEnd(BlockCommentEnd(b, i), |a|)
    decreases |b| - i
  {
    if i + 1 < |b| {
      BlockCommentEndShift(a, b, i + 1);
    }
  }

  lemma {:induction false} QuoteEndShift(a: string, b: string, i: nat, encloser: char, escaped: bool)
    requires i <= |b|
    ensures QuoteEnd(a + b, |a| + i, encloser, escaped) == ShiftEnd(QuoteEnd(b, i, encloser, escaped), |a|)
    decreases |b| - i
  {
    if i < |b| && !(b[i] == encloser && !escaped) {
      QuoteEndShift(a, b, i + 1, encloser, !escaped && b[i] == '\\');
    }
  }

  lemma {:induction false} TextEndShift(a: string, b: string, i: nat, escaped: bool)
    requires i <= |b|
    ensures TextEnd(a + b, |a| + i, escaped) == |a| + TextEnd(b, i, escaped)
    decreases |b| - i
  {
    if i < |b| {
      NextCharShift(a, b, i);
      if !OpensToken(b, i, escaped) {
        TextEndShift(a, b, i + 1, !escaped && b[i] == '\\');
      }
    }
  }

  function ShiftLexeme(l: Lexeme, n: nat): Lexeme
  {
    Lexeme(l.kind, l.end + n, l.next + n, l.open)
  }

  lemma LexemeShift(a: string, b: string, p: nat)
    requires p < |b|
    ensures LexemeAt(a + b, |a| + p) == ShiftLexeme(LexemeAt(b, p), |a|)
  {
    NextCharShift(a, b, p);
    if OpensLineComment(b, p) {
      LineCommentEndShift(a, b, p + 1);
    } else if OpensBlockComment(b, p) {
      BlockCommentEndShift(a, b, p + 2);
    } else if OpensQuoted(b, p) {
      QuoteEndShift(a, b, p + 1, b[p], false);
    } else {
      TextEndShift(a, b, p + 1, b[p] == '\\');
    }
  }

  lemma LexUnfolds(s: string, p: nat)
    requires p < |s|
    ensures Lex(s, p) == [ToToken(LexemeAt(s, p), p, false)] + Lex(s, LexemeAt(s, p).next)
  {
  }

  lemma {:induction false} LexShift(a: string, b: string, p: nat)
    requires p <= |b|
    ensures Lex(a + b, |a| + p) == Shift(Lex(b, p), |a|)
    decreases |b| - p
  {
    if p < |b| {
      var l := LexemeAt(b, p);
      var rest := Lex(b, l.next);
      LexShift(a, b, l.next);
      LexemeShift(a, b, p);
      LexLater(a + b, p, |a|, l, Shift(rest, |a|));
      ShiftCons(ToToken(l, p, false), rest, |a|);
      LexFrom(b, p, l, rest);
    }
  }

  lemma TokenLater(l: Lexeme, p: nat, n: nat)
    ensures ToToken(ShiftLexeme(l, n), n + p, false) == ShiftToken(ToToken(l, p, false), n)
  {
  }

  /** The first token of a text that starts n characters later, given those that follow it. */
  lemma LexLater(s: string, p: nat, n: nat, l: Lexeme, following: seq<Token>)
    requires n + p < |s| && LexemeAt(s, n + p) == ShiftLexeme(l, n) && Lex(s, n + l.next) == following
    ensures Lex(s, n + p) == [ShiftToken(ToToken(l, p, false), n)] + following
  {
    TokenLater(l, p, n);
    LexFrom(s, n + p, ShiftLexeme(l, n), following);
  }

  lemma LexFrom(s: string, p: nat, l: Lexeme, rest: seq<Token>)
    requires p < |s| && LexemeAt(s, p) == l && Lex(s, l.next) == rest
    ensures Lex(s, p) == [ToToken(l, p, false)] + rest
  {
  }

  // ---- what a following text changes ----

  lemma {:induction false} LineCommentEndLocal(a: string, b: string, i: nat)
    requires EndsWithBreak(a) && b != [] && i < |a|
    ensures LineCommentEnd(a, i) < |a|
    ensures b[0] != LF || LineCommentEnd(a, i) < |a| - 1 ==> LineCommentEnd(a + b, i) == LineCommentEnd(a, i)
    ensures b[0] == LF && LineCommentEnd(a, i) == |a| - 1 ==> LineCommentEnd(a + b, i) >= |a|
    decreases |a| - i
  {
    if i + 1 < |a| {
      assert NextChar(a + b, i) == NextChar(a, i);
      LineCommentEndLocal(a, b, i + 1);
    }
  }

  lemma {:induction false} BlockCommentEndLocal(a: string, b: string, i: nat)
    requires EndsWithBreak(a) && i <= |a|
    ensures BlockCommentEnd(a + b, i)
         == if BlockCommentEnd(a, i).Some? then BlockCommentEnd(a, i) else ShiftEnd(BlockCommentEnd(b, 0), |a|)
    decreases |a| - i
  {
    if i == |a| {
      BlockCommentEndShift(a, b, 0);
    } else if !(i + 1 < |a| && a[i] == '*' && a[i + 1] == '/') {
      BlockCommentEndLocal(a, b, i + 1);
      assert (a + b)[i] == a[i];
    }
  }

  lemma {:induction false} QuoteEndLocal(a: string, b: string, i: nat, encloser: char, escaped: bool)
    requires EndsWithBreak(a) && i <= |a| && (i == |a| ==> !escaped)
    ensures QuoteEnd(a + b, i, encloser, escaped)
         == if QuoteEnd(a, i, encloser, escaped).Some? then QuoteEnd(a, i, encloser, escaped)
            else ShiftEnd(QuoteEnd(b, 0, encloser, false), |a|)
    decreases |a| - i
  {
    if i == |a| {
      QuoteEndShift(a, b, 0, encloser, false);
    } else {
      assert (a + b)[i] == a[i];
      if !(a[i] == encloser && !escaped) {
        QuoteEndLocal(a, b, i + 1, encloser, !escaped && a[i] == '\\');
      }
    }
  }

  lemma OpensTokenLocal(a: string, b: string, i: nat, escaped: bool)
    requires EndsWithBreak(a) && i < |a|
    ensures OpensToken(a + b, i, escaped) == OpensToken(a, i, escaped)
  {
    assert i + 1 < |a| ==> NextChar(a + b, i) == NextChar(a, i);
  }

  lemma {:induction false} TextEndLocal(a: string, b: string, i: nat, escaped: bool)
    requires EndsWithBreak(a) && i <= |a| && (i == |a| ==> !escaped)
    ensures TextEnd(a + b, i, escaped)
         == if TextEnd(a, i, escaped) < |a| then TextEnd(a, i, escaped) else |a| + TextEnd(b, 0, false)
    decreases |a| - i
  {
    if i == |a| {
      TextEndShift(a, b, 0, false);
    } else {
      OpensTokenLocal(a, b, i, escaped);
      if !OpensToken(a, i, escaped) {
        TextEndLocal(a, b, i + 1, !escaped && a[i] == '\\');
      }
    }
  }

  /** How the token at p of the first text changes when b follows it: not at all
      when it ends before the boundary, else it goes on into b. */
  lemma LexemeLocal(a: string, b: string, p: nat)
    requires EndsWithBreak(a) && b != [] && p < |a|
    ensures var l := LexemeAt(a, p); var m := LexemeAt(a + b, p);
            && (l.end < |a| ==> !l.open)
            && (l.kind == SingleLineComment ==> l.end < |a| && l.next == l.end + 1)
            && (l.kind == SingleLineComment && b[0] == LF && l.next == |a| ==> m.kind == l.kind && m.end >= |a|)
            && (l.end < |a| && !(l.kind == SingleLineComment && b[0] == LF && l.next == |a|) ==> m == l)
            && (l.end == |a| && l.open ==>
                  IsResumable(l.kind) && l.kind != NoToken && m == ShiftLexeme(ResumedLexeme(b, l.kind), |a|))
            && (l.end == |a| && !l.open ==>
                  l.kind == Text && l.next == |a|
                  && m == Lexeme(Text, |a| + TextEnd(b, 0, false), |a| + TextEnd(b, 0, false), false))
  {
    OpensTokenLocal(a, b, p, false);
    assert (a + b)[p] == a[p];
    assert p + 1 < |a| ==> NextChar(a + b, p) == NextChar(a, p);
    if OpensLineComment(a, p) {
      LineCommentEndLocal(a, b, p + 1);
    } else if OpensBlockComment(a, p) {
      BlockCommentEndLocal(a, b, p + 2);
    } else if OpensQuoted(a, p) {
      QuoteEndLocal(a, b, p + 1, a[p], false);
    } else {
      TextEndLocal(a, b, p + 1, a[p] == '\\');
    }
  }

  // ---- resuming ----

  lemma LastOfCons(t: Token, ta: seq<Token>)
    requires ta != []
    ensures var whole := [t] + ta;
            whole[|whole| - 1] == ta[|ta| - 1] && whole[..|whole| - 1] == [t] + ta[..|ta| - 1]
  {
  }

  lemma JoinGrownIs(ts: seq<Token>, init: seq<Token>, last: Token, tb: seq<Token>, n: int)
    requires ts == init + [last] && tb != [] && Continues(last, tb[0], n)
    ensures Join(ts, tb, n) == (init + [last.(len := last.len + tb[0].len, rightOpen := tb[0].rightOpen)])
            + Shift(tb[1..], n)
  {
    assert ts[|ts| - 1] == last && ts[..|ts| - 1] == init;
  }

  lemma JoinGrownCons(t: Token, ta: seq<Token>, tb: seq<Token>, n: int)
    requires ta != [] && tb != [] && Continues(ta[|ta| - 1], tb[0], n)
    ensures Join([t] + ta, tb, n) == [t] + Join(ta, tb, n)
  {
    var init, last := ta[..|ta| - 1], ta[|ta| - 1];
    var grown := [last.(len := last.len + tb[0].len, rightOpen := tb[0].rightOpen)];
    Regroup([t], init, [last]);
    JoinGrownIs(ta, init, last, tb, n);
    JoinGrownIs([t] + ta, [t] + init, last, tb, n);
    Regroup([t], init, grown);
    Regroup([t], init + grown, Shift(tb[1..], n));
  }

  lemma JoinCons(t: Token, ta: seq<Token>, tb: seq<Token>, n: int)
    requires !t.rightOpen && t.End() < n
    ensures Join([t] + ta, tb, n) == [t] + Join(ta, tb, n)
    ensures OpenType([t] + ta) == OpenType(ta)
  {
    if ta == [] {
      NothingBehind([t]);
      NothingBefore(Shift(tb, n));
    } else {
      LastOfCons(t, ta);
      if tb != [] && Continues(ta[|ta| - 1], tb[0], n) {
        JoinGrownCons(t, ta, tb, n);
      } else {
        Regroup([t], ta, Shift(tb, n));
      }
    }
  }

  /** The boundary token grows by the first token of the next text. */
  lemma JoinGrows(t: Token, u: Token, rest: seq<Token>, n: nat)
    requires Continues(t, u, n)
    ensures Join([t], [u] + rest, n)
         == [t.(len := t.len + u.len, rightOpen := u.rightOpen)] + Shift(rest, n)
  {
    assert ([u] + rest)[1..] == rest;
    assert [t][..0] == [];
  }

  lemma {:induction false} LexJoins(a: string, b: string, p: nat)
    requires EndsWithBreak(a) && b != [] && p <= |a|
    requires !(b[0] == LF && EndsInLineComment(Lex(a, p)))
    ensures IsResumable(OpenType(Lex(a, p)))
    ensures Lex(a + b, p) == Join(Lex(a, p), LexResumed(b, OpenType(Lex(a, p))), |a|)
    decreases |a| - p
  {
    if p == |a| {
      LexShift(a, b, 0);
    } else {
      var l := LexemeAt(a, p);
      var t := ToToken(l, p, false);
      var rest := Lex(a, l.next);
      LexemeLocal(a, b, p);
      LexUnfolds(a, p);
      if rest != [] {
        LastOfCons(t, rest);
      }
      if l.end < |a| {
        LexUnfolds(a + b, p);
        LexJoins(a, b, l.next);
        JoinCons(t, rest, LexResumed(b, OpenType(rest)), |a|);
      } else {
        LexJoinsAtEnd(a, b, p);
      }
    }
  }

  lemma LexJoinsAtEnd(a: string, b: string, p: nat)
    requires EndsWithBreak(a) && b != [] && p < |a|
    requires LexemeAt(a, p).end == |a|
    ensures IsResumable(OpenType(Lex(a, p)))
    ensures Lex(a + b, p) == Join(Lex(a, p), LexResumed(b, OpenType(Lex(a, p))), |a|)
  {
    var l := LexemeAt(a, p);
    var t := ToToken(l, p, false);
    LexemeLocal(a, b, p);
    assert Lex(a, p) == [t];
    if l.open {
      OpenTokenJoins(a, b, p, l);
    } else if OpensToken(b, 0, false) {
      TextStops(a, b, p, l);
    } else {
      TextJoins(a, b, p, l);
    }
  }

  lemma OpenTokenJoins(a: string, b: string, p: nat, l: Lexeme)
    requires b != [] && p < |a| && l.end == |a| && l.open
    requires IsResumable(l.kind) && l.kind != NoToken
    requires LexemeAt(a + b, p) == ShiftLexeme(ResumedLexeme(b, l.kind), |a|)
    ensures Lex(a + b, p) == Join([ToToken(l, p, false)], LexResumed(b, l.kind), |a|)
  {
    var r := ResumedLexeme(b, l.kind);
    calc {
      Lex(a + b, p);
      { ShiftedRest(a, b, p, r); }
      [ToToken(ShiftLexeme(r, |a|), p, false)] + Shift(Lex(b, r.next), |a|);
      { BoundaryToken(l, r, p, false, |a|, Lex(b, r.next)); }
      Join([ToToken(l, p, false)], LexResumed(b, l.kind), |a|);
    }
  }

  lemma TextJoins(a: string, b: string, p: nat, l: Lexeme)
    requires b != [] && p < |a| && l == Lexeme(Text, |a|, |a|, false)
    requires LexemeAt(a + b, p) == ShiftLexeme(LexemeAt(b, 0), |a|)
    requires LexemeAt(b, 0).kind == Text
    ensures Lex(a + b, p) == Join([ToToken(l, p, false)], Lex(b, 0), |a|)
  {
    var r := LexemeAt(b, 0);
    calc {
      Lex(a + b, p);
      { ShiftedRest(a, b, p, r); }
      [ToToken(ShiftLexeme(r, |a|), p, false)] + Shift(Lex(b, r.next), |a|);
      { BoundaryToken(l, r, p, false, |a|, Lex(b, r.next)); }
      Join([ToToken(l, p, false)], [ToToken(r, 0, false)] + Lex(b, r.next), |a|);
      { LexUnfolds(b, 0); }
      Join([ToToken(l, p, false)], Lex(b, 0), |a|);
    }
  }

  /** After a token that ends inside the second text, its own tokens follow. */
  lemma ShiftedRest(a: string, b: string, p: nat, r: Lexeme)
    requires p < |a| && r.next <= |b|
    requires LexemeAt(a + b, p) == ShiftLexeme(r, |a|)
    ensures Lex(a + b, p) == [ToToken(ShiftLexeme(r, |a|), p, false)] + Shift(Lex(b, r.next), |a|)
  {
    LexShift(a, b, r.next);
    LexFrom(a + b, p, ShiftLexeme(r, |a|), Shift(Lex(b, r.next), |a|));
  }

  /** A token at the boundary that the next text's first token continues. */
  lemma BoundaryToken(l: Lexeme, r: Lexeme, p: nat, leftOpen: bool, n: nat, rest: seq<Token>)
    requires l.end == n && l.kind == r.kind
    requires l.open || (l.kind == Text && !r.open && !leftOpen)
    ensures Join([ToToken(l, p, leftOpen)], [ToToken(r, 0, l.open)] + rest, n)
         == [ToToken(ShiftLexeme(r, n), p, leftOpen)] + Shift(rest, n)
  {
    JoinGrows(ToToken(l, p, leftOpen), ToToken(r, 0, l.open), rest, n);
  }

  /** Text that ends at the boundary because the next text opens a token there. */
  lemma TextStops(a: string, b: string, p: nat, l: Lexeme)
    requires b != [] && p < |a| && l == Lexeme(Text, |a|, |a|, false)
    requires OpensToken(b, 0, false) && LexemeAt(a + b, p) == l
    ensures Lex(a + b, p) == Join([ToToken(l, p, false)], Lex(b, 0), |a|)
  {
    LexShift(a, b, 0);
    LexFrom(a + b, p, l, Shift(Lex(b, 0), |a|));
    OpensNoText(b);
    JoinApart(ToToken(l, p, false), Lex(b, 0), |a|);
  }

  lemma OpensNoText(b: string)
    requires b != [] && OpensToken(b, 0, false)
    ensures Lex(b, 0) != [] && Lex(b, 0)[0].kind != Text
  {
    assert LexemeAt(b, 0).kind != Text;
  }

  lemma JoinApart(t: Token, tb: seq<Token>, n: int)
    requires tb != [] && t.kind != tb[0].kind
    ensures Join([t], tb, n) == [t] + Shift(tb, n)
  {
    assert [t][|[t]| - 1] == t;
  }

  lemma ResumedLexemeLocal(a: string, b: string, kind: TokenType)
    requires EndsWithBreak(a) && b != [] && IsResumable(kind) && kind != NoToken
    ensures var l := ResumedLexeme(a, kind); var m := ResumedLexeme(a + b, kind);
            && l.kind == kind
            && (l.open ==> l.end == l.next == |a| && m == ShiftLexeme(ResumedLexeme(b, kind), |a|))
            && (!l.open ==> l.end == l.next < |a| && m == l)
  {
    match kind
    case MultipleLineComment => BlockCommentEndLocal(a, b, 0);
    case QuotedString => QuoteEndLocal(a, b, 0, '\'', false);
    case DoubleQuotedString => QuoteEndLocal(a, b, 0, '"', false);
    case QuotedIdentifier => QuoteEndLocal(a, b, 0, '`', false);
  }

  lemma ResumedJoins(a: string, b: string, kind: TokenType)
    requires EndsWithBreak(a) && b != [] && IsResumable(kind) && kind != NoToken
    requires !(b[0] == LF && EndsInLineComment(LexResumed(a, kind)))
    ensures IsResumable(OpenType(LexResumed(a, kind)))
    ensures LexResumed(a + b, kind) == Join(LexResumed(a, kind), LexResumed(b, OpenType(LexResumed(a, kind))), |a|)
  {
    var l := ResumedLexeme(a, kind);
    var t := ToToken(l, 0, true);
    ResumedLexemeLocal(a, b, kind);
    if l.open {
      OpenStartJoins(a, b, kind);
    } else {
      var rest := Lex(a, l.next);
      assert rest != [] ==> ([t] + rest)[|rest|] == rest[|rest| - 1];
      LexJoins(a, b, l.next);
      JoinCons(t, rest, LexResumed(b, OpenType(rest)), |a|);
    }
  }

  lemma OpenStartJoins(a: string, b: string, kind: TokenType)
    requires EndsWithBreak(a) && b != [] && IsResumable(kind) && kind != NoToken
    requires ResumedLexeme(a, kind).open
    ensures OpenType(LexResumed(a, kind)) == kind
    ensures LexResumed(a + b, kind) == Join(LexResumed(a, kind), LexResumed(b, kind), |a|)
  {
    var l := ResumedLexeme(a, kind);
    var r := ResumedLexeme(b, kind);
    ResumedLexemeLocal(a, b, kind);
    assert LexResumed(a, kind) == [ToToken(l, 0, true)];
    LexShift(a, b, r.next);
    calc {
      LexResumed(a + b, kind);
      [ToToken(ShiftLexeme(r, |a|), 0, true)] + Shift(Lex(b, r.next), |a|);
      { BoundaryToken(l, r, 0, true, |a|, Lex(b, r.next)); }
      Join([ToToken(l, 0, true)], LexResumed(b, kind), |a|);
    }
  }

  // ---- a line comment runs over a blank line ----

  /** The last token of a text of length n ends inside it, but in the whole it does not. */
  ghost predicate RunsOver(ta: seq<Token>, whole: seq<Token>, n: int)
  {
    ta != [] && |ta| <= |whole| && ta[|ta| - 1].End() < n <= whole[|ta| - 1].End()
  }

  lemma RunsOverCons(t: Token, ta: seq<Token>, whole: seq<Token>, n: int)
    requires RunsOver(ta, whole, n)
    ensures RunsOver([t] + ta, [t] + whole, n)
  {
    assert ([t] + whole)[|ta|] == whole[|ta| - 1];
  }

  /** When b starts with LF, the line comment a ends in goes on into b. */
  lemma {:induction false} CommentRunsOver(a: string, b: string, p: nat)
    requires EndsWithBreak(a) && b != [] && b[0] == LF && p <= |a| && EndsInLineComment(Lex(a, p))
    ensures RunsOver(Lex(a, p), Lex(a + b, p), |a|)
    decreases |a| - p
  {
    var l := LexemeAt(a, p);
    var rest := Lex(a, l.next);
    LexemeLocal(a, b, p);
    LexUnfolds(a, p);
    LexUnfolds(a + b, p);
    if rest != [] {
      LastOfCons(ToToken(l, p, false), rest);
      CommentRunsOver(a, b, l.next);
      RunsOverCons(ToToken(l, p, false), rest, Lex(a + b, l.next), |a|);
    }
  }

  lemma ResumedRunsOver(a: string, b: string, kind: TokenType)
    requires EndsWithBreak(a) && b != [] && b[0] == LF && IsResumable(kind)
    requires EndsInLineComment(LexResumed(a, kind))
    ensures RunsOver(LexResumed(a, kind), LexResumed(a + b, kind), |a|)
  {
    if kind == NoToken {
      CommentRunsOver(a, b, 0);
    } else {
      var l := ResumedLexeme(a, kind);
      var t, rest := ToToken(l, 0, true), Lex(a, l.next);
      ResumedLexemeLocal(a, b, kind);
      assert LexResumed(a, kind) == [t] + rest;
      assert rest != [];
      LastOfCons(t, rest);
      CommentRunsOver(a, b, l.next);
      RunsOverCons(t, rest, Lex(a + b, l.next), |a|);
    }
  }

  lemma JoinKeepsFirst(ta: seq<Token>, tb: seq<Token>, n: int)
    requires ta != [] && ta[|ta| - 1].End() < n
    ensures |Join(ta, tb, n)| >= |ta| && Join(ta, tb, n)[|ta| - 1] == ta[|ta| - 1]
  {
  }

  lemma CommentSplits(a: string, b: string, kind: TokenType, tb: seq<Token>)
    requires EndsWithBreak(a) && b != [] && b[0] == LF && IsResumable(kind)
    requires EndsInLineComment(LexResumed(a, kind))
    ensures LexResumed(a + b, kind) != Join(LexResumed(a, kind), tb, |a|)
  {
    ResumedRunsOver(a, b, kind);
    JoinKeepsFirst(LexResumed(a, kind), tb, |a|);
  }

  // ---- the results ----

  /** Scanning a text that ends in a line break and then the next one, entered with
      the type left open, gives the tokens of the whole: always, except that a line
      comment runs over a blank line. */
  lemma ResumedScan(a: string, b: string, kind: TokenType)
    requires EndsWithBreak(a) && b != [] && IsResumable(kind)
    ensures var ta := TokensOf(a, kind);
            && IsResumable(OpenType(ta))
            && (TokensOf(a + b, kind) == Join(ta, TokensOf(b, OpenType(ta)), |a|)
                <==> !(b[0] == LF && EndsInLineComment(ta)))
  {
    ScannerReadsLexemes(a, kind);
    ScannerReadsLexemes(a + b, kind);
    var ta := TokensOf(a, kind);
    if b[0] == LF && EndsInLineComment(ta) {
      LineCommentTokenIsClosed(a, kind);
      ScannerReadsLexemes(b, OpenType(ta));
      CommentSplits(a, b, kind, TokensOf(b, OpenType(ta)));
    } else {
      if kind == NoToken {
        LexJoins(a, b, 0);
      } else {
        ResumedJoins(a, b, kind);
      }
      ScannerReadsLexemes(b, OpenType(ta));
    }
  }

  lemma {:induction false} LexLineCommentClosed(s: string, p: nat)
    requires p <= |s|
    ensures forall j | 0 <= j < |Lex(s, p)| :: Lex(s, p)[j].kind == SingleLineComment ==> !Lex(s, p)[j].rightOpen
    decreases |s| - p
  {
    if p < |s| {
      LexUnfolds(s, p);
      LexLineCommentClosed(s, LexemeAt(s, p).next);
    }
  }

  lemma LineCommentTokenIsClosed(s: string, kind: TokenType)
    requires IsResumable(kind) && EndsInLineComment(LexResumed(s, kind))
    ensures OpenType(LexResumed(s, kind)) == NoToken
  {
    LexLineCommentClosed(s, 0);
    if kind != NoToken && s != [] {
      var l := ResumedLexeme(s, kind);
      LexLineCommentClosed(s, l.next);
      assert Lex(s, l.next) != [] ==> LexResumed(s, kind)[|Lex(s, l.next)|] == Lex(s, l.next)[|Lex(s, l.next)| - 1];
    }
  }

  // ---- any number of lines ----

  function Concat(lines: seq<string>): string
  {
    if lines == [] then [] else lines[0] + Concat(lines[1..])
  }

  /** Lines of a text, blank ones included: all but the last end in LF. */
  ghost predicate AreLines(lines: seq<string>)
  {
    && lines != []
    && (forall k | 0 <= k < |lines| - 1 :: EndsWithBreak(lines[k]))
  }

  lemma ConcatStart(lines: seq<string>)
    requires AreLines(lines)
    ensures StartsWithBreak(Concat(lines)) == StartsWithBreak(lines[0])
  {
    if |lines| == 1 {
      assert Concat(lines) == lines[0];
    } else {
      assert EndsWithBreak(lines[0]);
    }
  }

  /** The tokens of the lines, each scanned with the type the previous one left open. */
  function LineTokens(lines: seq<string>, kind: TokenType): seq<Token>
    requires lines != []
  {
    var ts := TokensOf(lines[0], kind);
    if |lines| == 1 then ts else Join(ts, LineTokens(lines[1..], OpenType(ts)), |lines[0]|)
  }

  /** The type line k is entered with. */
  function LineType(lines: seq<string>, kind: TokenType, k: nat): TokenType
    requires k < |lines|
  {
    if k == 0 then kind else LineType(lines[1..], OpenType(TokensOf(lines[0], kind)), k - 1)
  }

  predicate StartsWithBreak(b: string)
  {
    b != [] && b[0] == LF
  }

  /** Line k ends in a line comment and the next one is blank. */
  predicate BlankLineFollowsComment(lines: seq<string>, kind: TokenType, k: nat)
    requires k + 1 < |lines|
  {
    StartsWithBreak(lines[k + 1]) && EndsInLineComment(TokensOf(lines[k], LineType(lines, kind, k)))
  }

  ghost predicate HasLength(ts: seq<Token>)
  {
    forall j | 0 <= j < |ts| :: ts[j].len > 0
  }

  lemma {:induction false} ShiftAt(ts: seq<Token>, n: int)
    ensures |Shift(ts, n)| == |ts|
    ensures forall j | 0 <= j < |ts| :: Shift(ts, n)[j] == ShiftToken(ts[j], n)
  {
    if ts != [] {
      ShiftAt(ts[1..], n);
    }
  }

  lemma ShiftIsInjective(ts: seq<Token>, us: seq<Token>, n: int)
    requires Shift(ts, n) == Shift(us, n)
    ensures ts == us
  {
    ShiftAt(ts, n);
    ShiftAt(us, n);
    forall j | 0 <= j < |ts|
      ensures ts[j] == us[j]
    {
      assert ShiftToken(ts[j], n) == ShiftToken(us[j], n);
    }
  }

  lemma TokensHaveLength(s: string, kind: TokenType)
    requires IsResumable(kind)
    ensures HasLength(TokensOf(s, kind))
  {
    TokenPartition(s, kind);
  }

  lemma JoinHasLength(ta: seq<Token>, tb: seq<Token>, n: int)
    requires HasLength(ta) && HasLength(tb)
    ensures HasLength(Join(ta, tb, n))
  {
    ShiftAt(tb, n);
    if tb != [] {
      ShiftAt(tb[1..], n);
    }
  }

  /** The token at the boundary and those behind it. */
  lemma JoinSplits(ta: seq<Token>, tb: seq<Token>, n: int)
    requires ta != []
    ensures var last := ta[|ta| - 1]; var whole := Join(ta, tb, n);
            if tb != [] && Continues(last, tb[0], n) then
              && |whole| >= |ta| && whole[|ta|..] == Shift(tb[1..], n)
              && whole[|ta| - 1] == last.(len := last.len + tb[0].len, rightOpen := tb[0].rightOpen)
            else
              |whole| >= |ta| && whole[|ta|..] == Shift(tb, n) && whole[|ta| - 1] == last
  {
  }

  /** Different tokens of the second text never give the same tokens of the whole. */
  lemma JoinIsInjective(ta: seq<Token>, tb: seq<Token>, tc: seq<Token>, n: int)
    requires HasLength(tb) && HasLength(tc)
    requires Join(ta, tb, n) == Join(ta, tc, n)
    ensures tb == tc
  {
    if ta == [] {
      NothingBefore(Shift(tb, n));
      NothingBefore(Shift(tc, n));
      ShiftIsInjective(tb, tc, n);
    } else {
      JoinSplits(ta, tb, n);
      JoinSplits(ta, tc, n);
      if tb != [] && Continues(ta[|ta| - 1], tb[0], n) {
        ShiftIsInjective(tb[1..], tc[1..], n);
        assert tb[0] == tc[0];
        assert tb == [tb[0]] + tb[1..] && tc == [tc[0]] + tc[1..];
      } else {
        ShiftIsInjective(tb, tc, n);
      }
    }
  }

  lemma {:induction false} LineTokensHaveLength(lines: seq<string>, kind: TokenType)
    requires AreLines(lines) && IsResumable(kind)
    ensures HasLength(LineTokens(lines, kind))
    decreases |lines|
  {
    TokensHaveLength(lines[0], kind);
    if |lines| > 1 {
      var ts := TokensOf(lines[0], kind);
      ResumedScan(lines[0], [LF], kind);
      LineTokensHaveLength(lines[1..], OpenType(ts));
      JoinHasLength(ts, LineTokens(lines[1..], OpenType(ts)), |lines[0]|);
    }
  }

  /** A first line and a rest that gives the right tokens give the right tokens of the whole,
      unless the first line ends in a line comment and the rest starts with a blank line. */
  lemma FirstLineIff(a: string, b: string, kind: TokenType, tb: seq<Token>)
    requires EndsWithBreak(a) && IsResumable(kind) && HasLength(tb)
    ensures IsResumable(OpenType(TokensOf(a, kind)))
    ensures var ta := TokensOf(a, kind);
            Join(ta, tb, |a|) == TokensOf(a + b, kind)
            <==> tb == TokensOf(b, OpenType(ta)) && !(StartsWithBreak(b) && EndsInLineComment(ta))
  {
    var ta := TokensOf(a, kind);
    ResumedScan(a, if b == [] then [LF] else b, kind);
    var kindB := OpenType(ta);
    TokensHaveLength(b, kindB);
    if StartsWithBreak(b) && EndsInLineComment(ta) {
      ScannerReadsLexemes(a, kind);
      ScannerReadsLexemes(a + b, kind);
      CommentSplits(a, b, kind, tb);
    } else {
      if b == [] {
        ScannerReadsLexemes(b, kindB);
        NothingBehind(a);
        NothingBehind(ta);
      }
      if Join(ta, tb, |a|) == TokensOf(a + b, kind) {
        JoinIsInjective(ta, tb, TokensOf(b, kindB), |a|);
      }
    }
  }

  lemma LaterBlankLines(lines: seq<string>, kind: TokenType)
    requires |lines| > 1
    ensures var rest, kindB := lines[1..], OpenType(TokensOf(lines[0], kind));
            (forall k | 0 <= k < |lines| - 1 :: !BlankLineFollowsComment(lines, kind, k))
            <==> !BlankLineFollowsComment(lines, kind, 0)
                 && forall k | 0 <= k < |rest| - 1 :: !BlankLineFollowsComment(rest, kindB, k)
  {
    var rest, kindB := lines[1..], OpenType(TokensOf(lines[0], kind));
    assert forall k | 0 <= k < |rest| - 1 ::
        BlankLineFollowsComment(rest, kindB, k) == BlankLineFollowsComment(lines, kind, k + 1);
    assert forall k | 0 < k < |lines| - 1 ::
        BlankLineFollowsComment(lines, kind, k) == BlankLineFollowsComment(rest, kindB, k - 1);
  }

  /** Scanning line by line gives the tokens of the whole text, for any number of lines,
      if and only if no line that ends in a line comment is followed by a blank line. */
  lemma {:induction false} LinesScanIff(lines: seq<string>, kind: TokenType)
    requires AreLines(lines) && IsResumable(kind)
    ensures LineTokens(lines, kind) == TokensOf(Concat(lines), kind)
       <==> forall k | 0 <= k < |lines| - 1 :: !BlankLineFollowsComment(lines, kind, k)
    decreases |lines|
  {
    if |lines| == 1 {
      assert Concat(lines) == lines[0];
    } else {
      var a, rest := lines[0], lines[1..];
      var b, tb := Concat(rest), LineTokens(rest, OpenType(TokensOf(a, kind)));
      ConcatStart(rest);
      ResumedScan(a, [LF], kind);
      LineTokensHaveLength(rest, OpenType(TokensOf(a, kind)));
      LinesScanIff(rest, OpenType(TokensOf(a, kind)));
      FirstLineIff(a, b, kind, tb);
      LaterBlankLines(lines, kind);
    }
  }

  /** In particular, for texts without blank lines. */
  lemma LinesScanAsWhole(lines: seq<string>, kind: TokenType)
    requires AreLines(lines) && IsResumable(kind)
    requires forall k | 0 < k < |lines| :: !StartsWithBreak(lines[k])
    ensures LineTokens(lines, kind) == TokensOf(Concat(lines), kind)
  {
    LinesScanIff(lines, kind);
  }

  lemma OneCommentLine(a: string)
    requires a == "#\n"
    ensures TokensOf(a, NoToken) == [Token(0, 1, SingleLineComment, false, false)]
  {
    ScannerReadsLexemes(a, NoToken);
    assert LineCommentEnd(a, 1) == 1;
    assert LexemeAt(a, 0) == Lexeme(SingleLineComment, 1, 2, false);
    LexFrom(a, 0, LexemeAt(a, 0), []);
  }

  lemma OneBlankLine(b: string)
    requires b == "\n"
    ensures TokensOf(b, NoToken) == [Token(0, 1, Text, false, false)]
  {
    ScannerReadsLexemes(b, NoToken);
    assert LexemeAt(b, 0) == Lexeme(Text, 1, 1, false);
    LexFrom(b, 0, LexemeAt(b, 0), []);
  }

  lemma CommentAndBlankLine(s: string)
    requires s == "#\n\n"
    ensures TokensOf(s, NoToken) == [Token(0, 2, SingleLineComment, false, false)]
  {
    ScannerReadsLexemes(s, NoToken);
    assert LineCommentEnd(s, 2) == 2 && LineCommentEnd(s, 1) == 2;
    assert LexemeAt(s, 0) == Lexeme(SingleLineComment, 2, 3, false);
    LexFrom(s, 0, LexemeAt(s, 0), []);
  }

  lemma CommentAndText(ta: seq<Token>, tb: seq<Token>)
    requires ta == [Token(0, 1, SingleLineComment, false, false)] && tb == [Token(0, 1, Text, false, false)]
    ensures Join(ta, tb, 2) == [Token(0, 1, SingleLineComment, false, false), Token(2, 1, Text, false, false)]
    ensures OpenType(ta) == NoToken
  {
    assert !Continues(ta[0], tb[0], 2);
    assert tb == [tb[0]] + [];
    ShiftCons(tb[0], [], 2);
  }

  /** For example, a comment and a blank line: the comment of the whole text includes the first
      line break, but scanned line by line the second one is text. */
  lemma BlankLineExample(a: string, b: string)
    requires a == "#\n" && b == "\n"
    ensures TokensOf(a + b, NoToken) == [Token(0, 2, SingleLineComment, false, false)]
    ensures Join(TokensOf(a, NoToken), TokensOf(b, OpenType(TokensOf(a, NoToken))), |a|)
         == [Token(0, 1, SingleLineComment, false, false), Token(2, 1, Text, false, false)]
  {
    CommentAndBlankLine(a + b);
    OneCommentLine(a);
    OneBlankLine(b);
    CommentAndText(TokensOf(a, NoToken), TokensOf(b, NoToken));
  }
}
