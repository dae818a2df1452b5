/** SentencesParser::parseByDelimiter: cuts a script into statements. */
module SentenceSplitter {
  import opened QtStrings
  import opened SentenceTokenizer
  import opened SentenceLexer
  import opened SentenceRegions

  datatype Sentence = Sentence(text: string, position: int)

  /** The region the character c leaves the scanner in. Unlike the tokenizer, the
      opening and closing marks of a block comment are not skipped over. */
  function NextRegion(region: Region, inEscape: bool, c: char, next: char): Region
  {
    match region
    case Code =>
      if StartsLineComment(c, next) then InLineComment
      else if c == '/' && next == '*' then InBlockComment
      else if IsEncloser(c) && !inEscape then Quoted(c)
      else Code
    case InLineComment => if c == LF && next != LF then Code else InLineComment
    case InBlockComment => if c == '*' && next == '/' then Code else InBlockComment
    case Quoted(encloser) =>
      if c == encloser && IsEncloser(c) && !inEscape then Code else region
  }

  /** Whether the text up to and including index i ends with the delimiter. */
  predicate EndsWithDelim(s: string, i: nat, delim: string)
  {
    var r := MidRef(|s|, if i + 1 - |delim| < 0 then 0 else i + 1 - |delim|, |delim|);
    RefEquals(s, r, delim)
  }

  /** The statement in a trimmed part of the text, unless it is blank or a delimiter alone. */
  function Flush(s: string, t: Ref, delim: string): seq<Sentence>
    requires t.lo <= t.hi <= |s|
  {
    if t.lo < t.hi && !RefEquals(s, t, delim) then [Sentence(s[t.lo..t.hi], t.lo)] else []
  }

  datatype Turn = Turn(region: Region, inEscape: bool, last: nat, out: seq<Sentence>)

  /** What a turn at index i does once the region is known and the pending text starts at last. */
  function TurnIn(region: Region, inEscape: bool, s: string, delim: string, i: nat, last: nat): (t: Turn)
    requires i < |s|
  {
    var onDelim := region == Code && EndsWithDelim(s, i, delim);
    if onDelim || i + 1 == |s| then
      var trimmed := TrimmedRef(s, MidRef(|s|, last, (if onDelim then i + 1 - |delim| else i + 1) - last));
      Turn(region, inEscape, if trimmed.lo < trimmed.hi then i + 1 else last, Flush(s, trimmed, delim))
    else
      Turn(region, inEscape, last, [])
  }

  /** One turn of the loop. */
  function TurnAt(region: Region, inEscape: bool, s: string, delim: string, i: nat, last: nat): (t: Turn)
    requires i < |s|
  {
    TurnIn(NextRegion(region, inEscape, s[i], NextChar(s, i)), !inEscape && s[i] == '\\', s, delim, i, last)
  }

  /** The statements reported from index i on. */
  function SentencesFrom(region: Region, inEscape: bool, s: string, delim: string, i: nat, last: nat): seq<Sentence>
    requires i <= |s|
    decreases |s| - i
  {
    if i == |s| then []
    else
      var t := TurnAt(region, inEscape, s, delim, i, last);
      Prepend(t.out, SentencesFrom(t.region, t.inEscape, s, delim, i + 1, t.last))
  }

  function SentencesOf(s: string, delim: string): seq<Sentence>
  {
    SentencesFrom(Code, false, s, delim, 0, 0)
  }

  // ---- the regions are those of the reference ----

  /** The regions the loop goes through from index i on. */
  function ScannedRegions(region: Region, inEscape: bool, s: string, i: nat): (r: seq<Region>)
    requires i <= |s|
    ensures |r| == |s| - i
    decreases |s| - i
  {
    if i == |s| then []
    else
      var next := NextRegion(region, inEscape, s[i], NextChar(s, i));
      [next] + ScannedRegions(next, !inEscape && s[i] == '\\', s, i + 1)
  }

  /** One turn that leads to a region, and what is gone through then. */
  lemma OneScanned(region: Region, inEscape: bool, s: string, i: nat, next: Region, rest: seq<Region>)
    requires i < |s| && NextRegion(region, inEscape, s[i], NextChar(s, i)) == next
    requires ScannedRegions(next, !inEscape && s[i] == '\\', s, i + 1) == rest
    ensures ScannedRegions(region, inEscape, s, i) == [next] + rest
  {
  }

  lemma StretchGoesOn(region: Region, inEscape: bool, s: string, i: nat, e: nat, rest: seq<Region>)
    requires i < |s| && i < e && NextRegion(region, inEscape, s[i], NextChar(s, i)) == region
    requires ScannedRegions(region, !inEscape && s[i] == '\\', s, i + 1) == Extend(region, e - (i + 1), rest)
    ensures ScannedRegions(region, inEscape, s, i) == Extend(region, e - i, rest)
  {
    OneScanned(region, inEscape, s, i, region, Extend(region, e - (i + 1), rest));
  }

  lemma LineCommentEndIs(s: string, i: nat)
    requires i <= |s|
    ensures var e := LineCommentEnd(s, i);
            if e == i then i == |s| || NextRegion(InLineComment, false, s[i], NextChar(s, i)) == Code
            else i < e && NextRegion(InLineComment, false, s[i], NextChar(s, i)) == InLineComment
                 && e == LineCommentEnd(s, i + 1)
  {
  }

  lemma {:induction false} LineCommentScan(s: string, i: nat, inEscape: bool)
    requires i <= |s|
    ensures var e := LineCommentEnd(s, i);
            ScannedRegions(InLineComment, inEscape, s, i) == Extend(InLineComment, e - i, CodeScan(s, e))
    decreases |s| - i
  {
    var e := LineCommentEnd(s, i);
    LineCommentEndIs(s, i);
    if e == i {
      ClosingIsScanned(InLineComment, inEscape, s, e);
    } else {
      LineCommentScan(s, i + 1, !inEscape && s[i] == '\\');
      StretchGoesOn(InLineComment, inEscape, s, i, e, CodeScan(s, e));
    }
  }

  /** What the loop goes through from a closing mark on. */
  function CodeScan(s: string, e: nat): seq<Region>
    requires e <= |s|
  {
    if e == |s| then [] else [Code] + ScannedRegions(Code, false, s, e + 1)
  }

  /** At a closing mark, or the end, nothing of the region is left. */
  lemma ClosingIsScanned(region: Region, inEscape: bool, s: string, e: nat)
    requires e <= |s| && (e < |s| ==> NextRegion(region, inEscape, s[e], NextChar(s, e)) == Code)
    requires e < |s| ==> inEscape || s[e] != '\\'
    ensures ScannedRegions(region, inEscape, s, e) == Extend(region, e - e, CodeScan(s, e))
  {
    NothingBefore(CodeScan(s, e));
  }

  lemma {:induction false} BlockCommentScan(s: string, i: nat, inEscape: bool)
    requires i <= |s|
    ensures var e := BlockMark(s, i);
            ScannedRegions(InBlockComment, inEscape, s, i) == Extend(InBlockComment, e - i, CodeScan(s, e))
    decreases |s| - i
  {
    var e := BlockMark(s, i);
    BlockMarkIs(s, i);
    if e == i {
      ClosingIsScanned(InBlockComment, inEscape, s, e);
    } else {
      BlockCommentScan(s, i + 1, !inEscape && s[i] == '\\');
      StretchGoesOn(InBlockComment, inEscape, s, i, e, CodeScan(s, e));
    }
  }

  lemma StaysQuoted(encloser: char, inEscape: bool, c: char, next: char)
    requires c != encloser || inEscape
    ensures NextRegion(Quoted(encloser), inEscape, c, next) == Quoted(encloser)
  {
  }

  lemma {:induction false} QuotedScan(s: string, i: nat, encloser: char, inEscape: bool)
    requires i <= |s| && IsEncloser(encloser)
    ensures var e := QuoteMark(s, i, encloser, inEscape);
            ScannedRegions(Quoted(encloser), inEscape, s, i) == Extend(Quoted(encloser), e - i, CodeScan(s, e))
    decreases |s| - i
  {
    var e := QuoteMark(s, i, encloser, inEscape);
    QuoteMarkIs(s, i, encloser, inEscape);
    if i == |s| || (s[i] == encloser && !inEscape) {
      ClosingIsScanned(Quoted(encloser), inEscape, s, e);
    } else {
      QuotedScan(s, i + 1, encloser, !inEscape && s[i] == '\\');
      StaysQuoted(encloser, inEscape, s[i], NextChar(s, i));
      StretchGoesOn(Quoted(encloser), inEscape, s, i, e, CodeScan(s, e));
    }
  }

  /** For every script, the loop is in the regions that are read one comment or string at a time. */
  lemma {:induction false} RegionsAreRead(s: string, p: nat, escaped: bool)
    requires p <= |s|
    ensures ScannedRegions(Code, escaped, s, p) == RegionsFrom(s, p, escaped)
    decreases |s| - p
  {
    if p < |s| {
      if OpensLineComment(s, p) || OpensBlockComment(s, p) || (OpensQuoted(s, p) && !escaped) {
        var region, e := NextRegion(Code, escaped, s[p], NextChar(s, p)), ClosingMark(s, p);
        StretchIsScanned(s, p, escaped);
        StretchIsRead(s, p, escaped);
        if e < |s| {
          RegionsAreRead(s, e + 1, false);
        }
        assert CodeScan(s, e) == CodeAt(s, e);
        assert Stretch(s, p, region) == Extend(region, e - p, CodeAt(s, e));
      } else {
        RegionsAreRead(s, p + 1, !escaped && s[p] == '\\');
      }
    }
  }

  lemma StretchIsRead(s: string, p: nat, escaped: bool)
    requires p < |s| && (OpensLineComment(s, p) || OpensBlockComment(s, p) || (OpensQuoted(s, p) && !escaped))
    ensures RegionsFrom(s, p, escaped) == Stretch(s, p, NextRegion(Code, escaped, s[p], NextChar(s, p)))
  {
  }

  lemma StretchIsScanned(s: string, p: nat, escaped: bool)
    requires p < |s| && (OpensLineComment(s, p) || OpensBlockComment(s, p) || (OpensQuoted(s, p) && !escaped))
    ensures var region := NextRegion(Code, escaped, s[p], NextChar(s, p)); var e := ClosingMark(s, p);
            ScannedRegions(Code, escaped, s, p) == Extend(region, e - p, CodeScan(s, e))
  {
    var region, e := NextRegion(Code, escaped, s[p], NextChar(s, p)), ClosingMark(s, p);
    OpenedIsScanned(s, p, escaped, region, e);
    OneScanned(Code, escaped, s, p, region, Extend(region, e - p - 1, CodeScan(s, e)));
  }

  lemma OpenedIsScanned(s: string, p: nat, escaped: bool, region: Region, e: nat)
    requires p < |s| && (OpensLineComment(s, p) || OpensBlockComment(s, p) || (OpensQuoted(s, p) && !escaped))
    requires region == NextRegion(Code, escaped, s[p], NextChar(s, p)) && e == ClosingMark(s, p)
    ensures ScannedRegions(region, !escaped && s[p] == '\\', s, p + 1) == Extend(region, e - p - 1, CodeScan(s, e))
  {
    if OpensLineComment(s, p) {
      LineCommentScan(s, p + 1, !escaped && s[p] == '\\');
    } else if OpensBlockComment(s, p) {
      BlockCommentScan(s, p + 1, !escaped && s[p] == '\\');
    } else {
      QuotedScan(s, p + 1, s[p], false);
    }
  }

  /** The statements reported from index i on, given the region of every character. */
  function SentencesIn(regions: seq<Region>, s: string, delim: string, i: nat, last: nat): seq<Sentence>
    requires i <= |s| == |regions|
    decreases |s| - i
  {
    if i == |s| then []
    else
      var t := TurnIn(regions[i], false, s, delim, i, last);
      Prepend(t.out, SentencesIn(regions, s, delim, i + 1, t.last))
  }

  lemma {:induction false} RegionsDecide(region: Region, inEscape: bool, s: string, delim: string, i: nat, last: nat,
                                         regions: seq<Region>)
    requires i <= |s| == |regions| && regions[i..] == ScannedRegions(region, inEscape, s, i)
    ensures SentencesFrom(region, inEscape, s, delim, i, last) == SentencesIn(regions, s, delim, i, last)
    decreases |s| - i
  {
    if i < |s| {
      var next, escape := NextRegion(region, inEscape, s[i], NextChar(s, i)), !inEscape && s[i] == '\\';
      OneScanned(region, inEscape, s, i, next, ScannedRegions(next, escape, s, i + 1));
      assert regions[i] == regions[i..][0] == next;
      assert regions[i + 1..] == regions[i..][1..];
      RegionDecides(next, escape, s, delim, i, last);
      RegionsDecide(next, escape, s, delim, i + 1, TurnIn(next, false, s, delim, i, last).last, regions);
    }
  }

  /** The escape flag has no part in what a turn reports. */
  lemma RegionDecides(region: Region, inEscape: bool, s: string, delim: string, i: nat, last: nat)
    requires i < |s|
    ensures var t, u := TurnIn(region, inEscape, s, delim, i, last), TurnIn(region, false, s, delim, i, last);
            t.region == region && t.inEscape == inEscape && t.out == u.out && t.last == u.last
  {
  }

  /** What is reported is decided by the regions of the reference. */
  lemma SentencesAreIn(s: string, delim: string)
    ensures SentencesOf(s, delim) == SentencesIn(RegionsOf(s), s, delim, 0, 0)
  {
    RegionsAreRead(s, 0, false);
    RegionsDecide(Code, false, s, delim, 0, 0, RegionsOf(s));
  }

  /** The flag updates of one turn of the loop. */
  method ScanFlags(f: Flags, curChar: char, nextChar: char, i: nat) returns (g: Flags)
    requires f.AtMostOneOpen() && (i == 0 ==> !f.inLineComment)
    ensures g.AtMostOneOpen()
    ensures g.ToMode(None).region == NextRegion(f.ToMode(None).region, f.inEscape, curChar, nextChar)
    ensures g.inEscape == (!f.inEscape && curChar == '\\')
  {
    var inString, inLineComment, inBigComment := f.inString, f.inLineComment, f.inBigComment;
    var lastStringEncloser := f.lastStringEncloser;

    if !inLineComment && !inBigComment && !inString {
      inLineComment := StartsLineComment(curChar, nextChar);
    }

    if !inLineComment && !inBigComment && !inString {
      if curChar == '/' && nextChar == '*' {
        inBigComment := true;
      }
    }
    if inBigComment && !inLineComment && !inString {
      if curChar == '*' && nextChar == '/' {
        inBigComment := false;
      }
    }

    if !f.inEscape && !inLineComment && !inBigComment {
      if IsEncloser(curChar) {
        if !inString || curChar == lastStringEncloser {
          inString := !inString;
          lastStringEncloser := curChar;
        }
      }
    }

    if (curChar == LF && nextChar != LF) || i == 0 {
      if i > 0 {
        inLineComment := false;
      }
    }

    g := Flags(inString, inLineComment, inBigComment, !f.inEscape && curChar == '\\', lastStringEncloser);
  }

  /** Reports the statement pending in a part of the text. */
  method TakeStatement(s: string, query: Ref, delim: string) returns (out: seq<Sentence>, blank: bool)
    requires query.lo <= query.hi <= |s|
    ensures var t := TrimmedRef(s, query); out == Flush(s, t, delim) && blank == (t.lo == t.hi)
  {
    out := [];
    var queryTrimmed := TrimmedRef(s, query);
    blank := queryTrimmed.lo == queryTrimmed.hi;
    if !blank {
      if !RefEquals(s, queryTrimmed, delim) {
        // find the start of the statement, ignoring leading spaces
        var spaceCount := 0;
        while query.lo + spaceCount < query.hi && IsSpace(s[query.lo + spaceCount])
          invariant query.lo + spaceCount <= query.hi
          invariant SkipSpaces(s, query.lo + spaceCount, query.hi) == queryTrimmed.lo
        {
          spaceCount := spaceCount + 1;
        }
        out := [Sentence(s[queryTrimmed.lo..queryTrimmed.hi], query.lo + spaceCount)];
      }
    }
  }

  /** The delimiter check at index i, after the flags were updated. */
  method CheckDelim(SQL: string, delim: string, flags: Flags, i: nat, last: nat)
    returns (out: seq<Sentence>, lastLeftOffset: nat)
    requires i < |SQL|
    ensures Turn(flags.ToMode(None).region, flags.inEscape, lastLeftOffset, out)
         == TurnIn(flags.ToMode(None).region, flags.inEscape, SQL, delim, i, last)
  {
    out, lastLeftOffset := [], last;
    var onDelim := false;
    if !flags.inLineComment && !flags.inString && !flags.inBigComment {
      onDelim := EndsWithDelim(SQL, i, delim);
    }

    if onDelim || i + 1 == |SQL| {
      var rightOffset := i + 1;
      if onDelim {
        rightOffset := rightOffset - |delim|;
      }
      var blank;
      out, blank := TakeStatement(SQL, MidRef(|SQL|, last, rightOffset - last), delim);
      if !blank {
        lastLeftOffset := i + 1;
      }
    }
  }

  // What is reported from index i on, for flags as the loop keeps them.
  ghost function Remaining(flags: Flags, s: string, delim: string, i: nat, last: nat): seq<Sentence>
    requires i <= |s|
  {
    SentencesFrom(flags.ToMode(None).region, flags.inEscape, s, delim, i, last)
  }

  lemma RemainingSteps(f: Flags, g: Flags, s: string, delim: string, i: nat, last: nat, last': nat, out: seq<Sentence>)
    requires i < |s|
    requires g.ToMode(None).region == NextRegion(f.ToMode(None).region, f.inEscape, s[i], NextChar(s, i))
    requires g.inEscape == (!f.inEscape && s[i] == '\\')
    requires Turn(g.ToMode(None).region, g.inEscape, last', out)
          == TurnIn(g.ToMode(None).region, g.inEscape, s, delim, i, last)
    ensures Remaining(f, s, delim, i, last) == Prepend(out, Remaining(g, s, delim, i + 1, last'))
  {
  }

  /** One turn of the loop: what it reports, and what is left to report. */
  method ScanTurn(SQL: string, delim: string, f: Flags, i: nat, last: nat)
      returns (g: Flags, out: seq<Sentence>, lastLeftOffset: nat)
    requires i < |SQL| && f.AtMostOneOpen() && (i == 0 ==> !f.inLineComment)
    ensures g.AtMostOneOpen()
    ensures Remaining(f, SQL, delim, i, last) == Prepend(out, Remaining(g, SQL, delim, i + 1, lastLeftOffset))
  {
    g := ScanFlags(f, SQL[i], NextChar(SQL, i), i);
    out, lastLeftOffset := CheckDelim(SQL, delim, g, i, last);
    RemainingSteps(f, g, SQL, delim, i, last, lastLeftOffset, out);
  }

  ghost predicate IsDone(list: seq<Sentence>, remaining: seq<Sentence>, all: seq<Sentence>)
  {
    list + remaining == all
  }

  /** The splitter in the source's own form. */
  method ParseByDelimiter(SQL: string, delim: string) returns (list: seq<Sentence>)
    ensures list == SentencesOf(SQL, delim)
  {
    list := [];
    var allLen := |SQL|;
    var flags := Flags(false, false, false, false, NUL);
    var lastLeftOffset := 0;
    var i := 0;
    ghost var all := SentencesOf(SQL, delim);
    NothingBefore(all);
    assert IsDone(list, Remaining(flags, SQL, delim, 0, 0), all);
    while i < allLen
      invariant 0 <= i <= allLen && 0 <= lastLeftOffset
      invariant flags.AtMostOneOpen() && (i == 0 ==> !flags.inLineComment)
      invariant IsDone(list, Remaining(flags, SQL, delim, i, lastLeftOffset), all)
    {
      var out;
      flags, out, lastLeftOffset := ScanTurn(SQL, delim, flags, i, lastLeftOffset);
      i := i + 1;
      ghost var rest := Remaining(flags, SQL, delim, i, lastLeftOffset);
      PrependAppends(list, out, rest);
      list := list + out;
      assert IsDone(list, rest, all);
    }
    NothingBehind(list);
  }

  // ---- where the delimiter is seen ----

  /** A delimiter is seen at its last character, and at the start of a script already at its first. */
  lemma EndsWithDelimIff(s: string, i: nat, delim: string)
    requires i < |s|
    ensures EndsWithDelim(s, i, delim)
       <==> |delim| <= |s| && delim == if |delim| <= i + 1 then s[i + 1 - |delim|..i + 1] else s[..|delim|]
  {
    var a := if |delim| <= i + 1 then i + 1 - |delim| else 0;
    if |delim| <= |s| {
      assert MidRef(|s|, a, |delim|) == Ref(a, a + |delim|);
      RefIsSlice(s, Ref(a, a + |delim|), delim);
    }
  }

  lemma RefIsSlice(s: string, r: Ref, t: string)
    requires r.lo <= r.hi <= |s|
    ensures RefEquals(s, r, t) <==> s[r.lo..r.hi] == t
  {
    var part := s[r.lo..r.hi];
    assert forall k | 0 <= k < |part| :: part[k] == s[r.lo + k];
  }

  lemma OneCharDelim(s: string, i: nat, d: char)
    requires i < |s|
    ensures EndsWithDelim(s, i, [d]) == (s[i] == d)
  {
    assert [d][0] == d && s[i + 0] == s[i];
  }

  // ---- nothing but white space and delimiters is lost ----

  predicate Occurs(s: string, delim: string, a: int)
  {
    0 <= a <= a + |delim| <= |s| && s[a..a + |delim|] == delim
  }

  /** The delimiter does not overlap itself in the script, and does not begin it, unless it is a
      single character. */
  ghost predicate IsSpaced(s: string, delim: string)
  {
    && (|delim| > 1 ==> !Occurs(s, delim, 0))
    && forall a, b | a < b && Occurs(s, delim, a) && Occurs(s, delim, b) :: a + |delim| <= b
  }

  lemma OneCharIsSpaced(s: string, d: char)
    ensures IsSpaced(s, [d])
  {
  }

  ghost predicate IsFiller(s: string, delim: string, k: int)
    requires 0 <= k < |s|
  {
    IsSpace(s[k]) || exists a :: a <= k < a + |delim| && Occurs(s, delim, a)
  }

  ghost predicate AllFiller(s: string, delim: string, lo: int, hi: int)
    requires 0 <= lo && hi <= |s|
  {
    forall k | lo <= k < hi :: IsFiller(s, delim, k)
  }

  lemma DelimiterIsFiller(s: string, delim: string, a: nat)
    requires Occurs(s, delim, a)
    ensures AllFiller(s, delim, a, a + |delim|)
  {
  }

  /** The statements are slices of s from position p on, in order, and everything
      between and after them is filler. */
  ghost predicate Accounts(list: seq<Sentence>, s: string, delim: string, p: int)
    requires 0 <= p <= |s|
  {
    if list == [] then
      AllFiller(s, delim, p, |s|)
    else
      var a := list[0].position;
      var e := a + |list[0].text|;
      && p <= a < e <= |s|
      && AllFiller(s, delim, p, a)
      && list[0].text == s[a..e]
      && IsTrimmed(list[0].text)
      && Accounts(list[1..], s, delim, e)
  }

  lemma AccountsEarlier(list: seq<Sentence>, s: string, delim: string, p: int, q: int)
    requires 0 <= p <= q <= |s| && AllFiller(s, delim, p, q) && Accounts(list, s, delim, q)
    ensures Accounts(list, s, delim, p)
  {
  }

  /** What trimming leaves out is white space. */
  lemma TrimmedIsFiller(s: string, delim: string, lo: nat, hi: nat)
    requires lo <= hi <= |s|
    ensures var t := TrimmedRef(s, Ref(lo, hi));
            && AllFiller(s, delim, lo, t.lo) && AllFiller(s, delim, t.hi, hi)
            && (t.lo < t.hi ==> !IsSpace(s[t.lo]) && !IsSpace(s[t.hi - 1]))
            && (t.lo >= t.hi ==> AllFiller(s, delim, lo, hi))
  {
    TrimmedRefMeans(s, Ref(lo, hi));
  }

  /** What flushing the text in [last, right) reports, given what follows. */
  lemma FlushAccounts(s: string, delim: string, last: nat, right: nat, rest: seq<Sentence>, next: nat)
    requires last <= right <= next <= |s| && AllFiller(s, delim, right, next)
    requires var t := TrimmedRef(s, Ref(last, right)); t.lo < t.hi
    requires Accounts(rest, s, delim, next)
    ensures Accounts(Prepend(Flush(s, TrimmedRef(s, Ref(last, right)), delim), rest), s, delim, last)
  {
    var t := TrimmedRef(s, Ref(last, right));
    TrimmedIsFiller(s, delim, last, right);
    AccountsEarlier(rest, s, delim, t.hi, next);
    var text := s[t.lo..t.hi];
    if RefEquals(s, t, delim) {
      RefIsSlice(s, t, delim);
      DelimiterIsFiller(s, delim, t.lo);
      AccountsEarlier(rest, s, delim, last, t.hi);
    } else {
      assert text[0] == s[t.lo] && text[|text| - 1] == s[t.hi - 1];
      assert ([Sentence(text, t.lo)] + rest)[1..] == rest;
    }
  }

  /** Where pending text can begin: at the start, or right behind a delimiter. */
  ghost predicate IsCut(s: string, delim: string, last: nat)
  {
    last == 0 || Occurs(s, delim, last - |delim|)
  }

  /** In a spaced script, a delimiter begins behind the start of the pending text. */
  lemma DelimiterIsBehind(s: string, delim: string, i: nat, last: nat)
    requires IsSpaced(s, delim) && last <= i < |s| && IsCut(s, delim, last) && EndsWithDelim(s, i, delim)
    ensures last + |delim| <= i + 1 && Occurs(s, delim, i + 1 - |delim|)
  {
    EndsWithDelimIff(s, i, delim);
    if |delim| > i + 1 {
      assert s[..|delim|] == s[0..0 + |delim|];
      assert Occurs(s, delim, 0);
    } else {
      var a := i + 1 - |delim|;
      assert s[a..a + |delim|] == s[a..i + 1];
      assert Occurs(s, delim, a);
    }
  }

  /** One turn accounts for the text from last up to where pending text starts next. */
  lemma TurnAccounts(region: Region, inEscape: bool, s: string, delim: string, i: nat, last: nat, rest: seq<Sentence>)
    requires IsSpaced(s, delim) && last <= i < |s| && IsCut(s, delim, last)
    requires var t := TurnIn(region, inEscape, s, delim, i, last); Accounts(rest, s, delim, t.last)
    ensures var t := TurnIn(region, inEscape, s, delim, i, last); Accounts(Prepend(t.out, rest), s, delim, last)
  {
    var onDelim := region == Code && EndsWithDelim(s, i, delim);
    if onDelim || i + 1 == |s| {
      var right := PendingEnd(s, delim, i, last, onDelim);
      TurnTakes(region, inEscape, s, delim, i, last, right);
      var r := TrimmedRef(s, Ref(last, right));
      if r.lo < r.hi {
        FlushAccounts(s, delim, last, right, rest, i + 1);
      }
    }
  }

  /** What a turn does that takes the pending text up to right. */
  lemma TurnTakes(region: Region, inEscape: bool, s: string, delim: string, i: nat, last: nat, right: nat)
    requires last <= right <= |s| && i < |s| && MidRef(|s|, last, right - last) == Ref(last, right)
    requires var onDelim := region == Code && EndsWithDelim(s, i, delim);
             (onDelim || i + 1 == |s|) && right == if onDelim then i + 1 - |delim| else i + 1
    ensures var t, r := TurnIn(region, inEscape, s, delim, i, last), TrimmedRef(s, Ref(last, right));
            t.last == (if r.lo < r.hi then i + 1 else last) && t.out == Flush(s, r, delim)
  {
  }

  /** Pending text ends before the delimiter, if there is one. */
  lemma PendingEnd(s: string, delim: string, i: nat, last: nat, onDelim: bool) returns (right: nat)
    requires IsSpaced(s, delim) && last <= i < |s| && IsCut(s, delim, last)
    requires onDelim ==> EndsWithDelim(s, i, delim)
    ensures last <= right <= i + 1 && right == (if onDelim then i + 1 - |delim| else i + 1)
    ensures AllFiller(s, delim, right, i + 1) && MidRef(|s|, last, right - last) == Ref(last, right)
  {
    right := i + 1;
    if onDelim {
      DelimiterIsBehind(s, delim, i, last);
      right := i + 1 - |delim|;
      DelimiterIsFiller(s, delim, right);
    }
  }

  /** Pending text begins right behind a delimiter again, but for the last turn. */
  lemma TurnCuts(region: Region, inEscape: bool, s: string, delim: string, i: nat, last: nat)
    requires IsSpaced(s, delim) && last <= i < |s| && IsCut(s, delim, last)
    ensures var t := TurnIn(region, inEscape, s, delim, i, last);
            (t.last == last || t.last == i + 1) && (i + 1 < |s| ==> IsCut(s, delim, t.last))
  {
    if region == Code && EndsWithDelim(s, i, delim) {
      DelimiterIsBehind(s, delim, i, last);
    }
  }

  /** When a turn at the last character reports nothing, what is pending is filler. */
  lemma LastTurn(region: Region, inEscape: bool, s: string, delim: string, last: nat)
    requires IsSpaced(s, delim) && last < |s| && IsCut(s, delim, last)
    ensures var t := TurnIn(region, inEscape, s, delim, |s| - 1, last); AllFiller(s, delim, t.last, |s|)
  {
    var right := PendingEnd(s, delim, |s| - 1, last, region == Code && EndsWithDelim(s, |s| - 1, delim));
    TurnTakes(region, inEscape, s, delim, |s| - 1, last, right);
    TrimmedIsFiller(s, delim, last, right);
  }

  lemma {:induction false} FromAccounts(region: Region, inEscape: bool, s: string, delim: string, i: nat, last: nat)
    requires IsSpaced(s, delim) && last <= i <= |s|
    requires if i == |s| then AllFiller(s, delim, last, |s|) else IsCut(s, delim, last)
    ensures Accounts(SentencesFrom(region, inEscape, s, delim, i, last), s, delim, last)
    decreases |s| - i
  {
    if i < |s| {
      var t := TurnAt(region, inEscape, s, delim, i, last);
      TurnIsKept(region, inEscape, s, delim, i, last);
      FromAccounts(t.region, t.inEscape, s, delim, i + 1, t.last);
      var rest := SentencesFrom(t.region, t.inEscape, s, delim, i + 1, t.last);
      TurnAccounts(NextRegion(region, inEscape, s[i], NextChar(s, i)), !inEscape && s[i] == '\\', s, delim, i, last,
                   rest);
    }
  }

  lemma TurnIsKept(region: Region, inEscape: bool, s: string, delim: string, i: nat, last: nat)
    requires IsSpaced(s, delim) && last <= i < |s| && IsCut(s, delim, last)
    ensures var t := TurnAt(region, inEscape, s, delim, i, last);
            && last <= t.last <= i + 1
            && if i + 1 == |s| then AllFiller(s, delim, t.last, |s|) else IsCut(s, delim, t.last)
  {
    var region', escape' := NextRegion(region, inEscape, s[i], NextChar(s, i)), !inEscape && s[i] == '\\';
    TurnCuts(region', escape', s, delim, i, last);
    if i + 1 == |s| {
      LastTurn(region', escape', s, delim, last);
    }
  }

  ghost predicate InSentence(x: Sentence, k: int)
  {
    x.position <= k < x.position + |x.text|
  }

  ghost predicate IsSliceOf(x: Sentence, s: string)
  {
    && 0 <= x.position <= x.position + |x.text| <= |s|
    && x.text == s[x.position..x.position + |x.text|]
  }

  lemma {:induction false} AccountsMeans(list: seq<Sentence>, s: string, delim: string, p: int)
    requires 0 <= p <= |s| && Accounts(list, s, delim, p)
    ensures forall x | x in list :: IsSliceOf(x, s) && p <= x.position && IsTrimmed(x.text)
    ensures forall i, j | 0 <= i < j < |list| :: list[i].position + |list[i].text| <= list[j].position
    ensures forall k | p <= k < |s| && (forall x | x in list :: !InSentence(x, k)) :: IsFiller(s, delim, k)
    decreases list
  {
    if list != [] {
      var e := list[0].position + |list[0].text|;
      AccountsMeans(list[1..], s, delim, e);
      assert forall j | 0 < j < |list| :: list[j] == list[1..][j - 1];
      forall k | p <= k < |s| && (forall x | x in list :: !InSentence(x, k))
        ensures IsFiller(s, delim, k)
      {
        assert !InSentence(list[0], k);
        assert forall x | x in list[1..] :: x in list;
      }
    }
  }

  /** Every statement is the trimmed slice of the script at its position, slices are
      ordered and disjoint, and a character in no slice is white space or part of a delimiter. */
  lemma StatementConservation(s: string, delim: string)
    requires IsSpaced(s, delim)
    ensures var list := SentencesOf(s, delim);
            && (forall x | x in list :: IsSliceOf(x, s) && IsTrimmed(x.text))
            && (forall i, j | 0 <= i < j < |list| :: list[i].position + |list[i].text| <= list[j].position)
            && (forall k | 0 <= k < |s| && (forall x | x in list :: !InSentence(x, k)) :: IsFiller(s, delim, k))
  {
    FromAccounts(Code, false, s, delim, 0, 0);
    AccountsMeans(SentencesOf(s, delim), s, delim, 0);
  }

  // ---- a delimiter that begins a script ----

  /** A turn on the delimiter or at the end that takes a part without white space at its ends. */
  lemma TakesPart(s: string, delim: string, i: nat, last: nat, hi: nat)
    requires i < |s| && last < hi <= |s| && !IsSpace(s[last]) && !IsSpace(s[hi - 1])
    requires EndsWithDelim(s, i, delim) || i + 1 == |s|
    requires MidRef(|s|, last, (if EndsWithDelim(s, i, delim) then i + 1 - |delim| else i + 1) - last) == Ref(last, hi)
    requires s[last..hi] != delim
    ensures TurnIn(Code, false, s, delim, i, last) == Turn(Code, false, i + 1, [Sentence(s[last..hi], last)])
  {
    var r := Ref(last, hi);
    assert TrimmedRef(s, r) == r;
    RefIsSlice(s, r, delim);
  }

  lemma FirstTurn(s: string, d: string)
    requires s == "//a" && d == "//"
    ensures TurnIn(Code, false, s, d, 0, 0) == Turn(Code, false, 1, [Sentence(s, 0)])
  {
    EndsWithDelimIff(s, 0, d);
    assert s[..2] == d && s[0..3] == s;
    TakesPart(s, d, 0, 0, 3);
  }

  lemma SecondTurn(s: string, d: string)
    requires s == "//a" && d == "//"
    ensures TurnIn(Code, false, s, d, 1, 1) == Turn(Code, false, 2, [Sentence("/a", 1)])
  {
    EndsWithDelimIff(s, 1, d);
    assert s[0..2] == d && s[1..3] == "/a";
    TakesPart(s, d, 1, 1, 3);
  }

  lemma ThirdTurn(s: string, d: string)
    requires s == "//a" && d == "//"
    ensures TurnIn(Code, false, s, d, 2, 2) == Turn(Code, false, 3, [Sentence("a", 2)])
  {
    EndsWithDelimIff(s, 2, d);
    assert s[1..3][1] != d[1] && s[2..3] == "a";
    TakesPart(s, d, 2, 2, 3);
  }

  /** So a script that begins with one of two characters gives its statement three times. */
  lemma LongDelimiterExample()
    ensures SentencesOf("//a", "//") == [Sentence("//a", 0), Sentence("/a", 1), Sentence("a", 2)]
  {
    FirstTurn("//a", "//");
    SecondTurn("//a", "//");
    ThirdTurn("//a", "//");
    ThreeTurns("//a", "//");
  }

  lemma ThreeTurns(s: string, d: string)
    requires s == "//a"
    requires TurnIn(Code, false, s, d, 0, 0) == Turn(Code, false, 1, [Sentence(s, 0)])
    requires TurnIn(Code, false, s, d, 1, 1) == Turn(Code, false, 2, [Sentence("/a", 1)])
    requires TurnIn(Code, false, s, d, 2, 2) == Turn(Code, false, 3, [Sentence("a", 2)])
    ensures SentencesOf(s, d) == [Sentence(s, 0), Sentence("/a", 1), Sentence("a", 2)]
  {
    assert SentencesFrom(Code, false, s, d, 2, 2) == [Sentence("a", 2)];
    assert SentencesFrom(Code, false, s, d, 1, 1) == [Sentence("/a", 1), Sentence("a", 2)];
  }
}
