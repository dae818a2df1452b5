/** Which parts of a script are code, comments and strings: a reading of one comment or string at
    a time, which the splitter's flags are compared with.
 */
module SentenceRegions {
  import opened SentenceTokenizer
  import opened SentenceLexer

  /** A region n times, and then the rest. */
  function Extend(region: Region, n: nat, rest: seq<Region>): (r: seq<Region>)
    ensures |r| == n + |rest|
  {
    if n == 0 then rest else [region] + Extend(region, n - 1, rest)
  }

  function BlockMark(s: string, i: nat): (e: nat)
    requires i <= |s|
    ensures i <= e <= |s|
  {
    var end := BlockCommentEnd(s, i); if end.Some? then end.value - 2 else |s|
  }

  function QuoteMark(s: string, i: nat, encloser: char, escaped: bool): (e: nat)
    requires i <= |s|
    ensures i <= e <= |s|
  {
    var end := QuoteEnd(s, i, encloser, escaped); if end.Some? then end.value - 1 else |s|
  }

  lemma BlockMarkIs(s: string, i: nat)
    requires i <= |s|
    ensures BlockMark(s, i)
         == if i == |s| || (s[i] == '*' && i + 1 < |s| && s[i + 1] == '/') then i else BlockMark(s, i + 1)
  {
  }

  lemma QuoteMarkIs(s: string, i: nat, encloser: char, escaped: bool)
    requires i <= |s|
    ensures QuoteMark(s, i, encloser, escaped)
         == if i == |s| || (s[i] == encloser && !escaped) then i
            else QuoteMark(s, i + 1, encloser, !escaped && s[i] == '\\')
  {
  }

  /** Where the closing mark of a comment or string begins that opened at p, or the end of the
      script. The star that opens a block comment can also close it. */
  function ClosingMark(s: string, p: nat): (e: nat)
    requires p < |s| && (OpensLineComment(s, p) || OpensBlockComment(s, p) || OpensQuoted(s, p))
    ensures p < e <= |s|
  {
    if OpensLineComment(s, p) then LineCommentEnd(s, p + 1)
    else if OpensBlockComment(s, p) then BlockMark(s, p + 1)
    else QuoteMark(s, p + 1, s[p], false)
  }

  /** The region of each character from p on, when no comment or string is open there: one that
      opens reaches up to its closing mark, which is code again. */
  function RegionsFrom(s: string, p: nat, escaped: bool): (r: seq<Region>)
    requires p <= |s|
    ensures |r| == |s| - p
    decreases |s| - p
  {
    if p == |s| then []
    else if OpensLineComment(s, p) then Stretch(s, p, InLineComment)
    else if OpensBlockComment(s, p) then Stretch(s, p, InBlockComment)
    else if OpensQuoted(s, p) && !escaped then Stretch(s, p, Quoted(s[p]))
    else [Code] + RegionsFrom(s, p + 1, !escaped && s[p] == '\\')
  }

  function Stretch(s: string, p: nat, region: Region): (r: seq<Region>)
    requires p < |s| && (OpensLineComment(s, p) || OpensBlockComment(s, p) || OpensQuoted(s, p))
    ensures |r| == |s| - p
    decreases |s| - p, 0
  {
    var e := ClosingMark(s, p);
    Extend(region, e - p, CodeAt(s, e))
  }

  function CodeAt(s: string, e: nat): (r: seq<Region>)
    requires e <= |s|
    ensures |r| == |s| - e
    decreases |s| - e, 1
  {
    if e == |s| then [] else [Code] + RegionsFrom(s, e + 1, false)
  }

  function RegionsOf(s: string): (r: seq<Region>)
    ensures |r| == |s|
  {
    RegionsFrom(s, 0, false)
  }
}
