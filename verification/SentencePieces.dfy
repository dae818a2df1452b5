/** Splitting a script that was put together from pieces: which statements come back. */
module SentencePieces {
  import opened QtStrings
  import opened SentenceTokenizer
  import opened SentenceRegions
  import opened SentenceSplitter

  // ---- pieces between delimiters ----

  /** A delimiter that is no part of SQL's comment, string or escape syntax. */
  predicate IsPlain(d: char)
  {
    !IsSpace(d) && !IsEncloser(d) && d != '#' && d != '-' && d != '/' && d != '*' && d != '\\' && d != NUL
  }

  /** The piece has no delimiter outside strings and comments, and ends outside them if it is to
      be closed. */
  predicate IsPiece(p: string, d: char, closed: bool)
  {
    var regions := RegionsOf(p);
    && (forall k | 0 <= k < |p| && p[k] == d :: regions[k] != Code)
    && (closed && p != [] ==> regions[|p| - 1] == Code)
  }

  /** All but the last one are closed. */
  ghost predicate ArePieces(pieces: seq<string>, d: char)
  {
    forall k | 0 <= k < |pieces| :: IsPiece(pieces[k], d, k + 1 < |pieces|)
  }

  /** The same from index i on, in terms of the regions the loop goes through. */
  predicate StaysWithin(region: Region, inEscape: bool, p: string, d: char, i: nat, closed: bool)
    requires i <= |p|
    decreases |p| - i
  {
    if i == |p| then
      closed ==> region == Code
    else
      var region' := NextRegion(region, inEscape, p[i], NextChar(p, i));
      (region' == Code ==> p[i] != d) && StaysWithin(region', !inEscape && p[i] == '\\', p, d, i + 1, closed)
  }

  /** The piece with the given regions from index i on. */
  ghost predicate IsPieceIn(regions: seq<Region>, p: string, d: char, i: nat, region: Region, closed: bool)
    requires i <= |p| == |regions|
  {
    && (forall k | i <= k < |p| && p[k] == d :: regions[k] != Code)
    && (closed ==> (if i < |p| then regions[|p| - 1] else region) == Code)
  }

  lemma {:induction false} StaysWithinIff(region: Region, inEscape: bool, p: string, d: char, i: nat, closed: bool,
                                          regions: seq<Region>)
    requires i <= |p| == |regions| && regions[i..] == ScannedRegions(region, inEscape, p, i)
    ensures StaysWithin(region, inEscape, p, d, i, closed) <==> IsPieceIn(regions, p, d, i, region, closed)
    decreases |p| - i
  {
    if i < |p| {
      var next, escape := NextRegion(region, inEscape, p[i], NextChar(p, i)), !inEscape && p[i] == '\\';
      OneScanned(region, inEscape, p, i, next, ScannedRegions(next, escape, p, i + 1));
      assert regions[i] == regions[i..][0] == next;
      assert regions[i + 1..] == regions[i..][1..];
      StaysWithinIff(next, escape, p, d, i + 1, closed, regions);
    }
  }

  lemma PieceIff(p: string, d: char, closed: bool)
    ensures IsPiece(p, d, closed) <==> StaysWithin(Code, false, p, d, 0, closed)
  {
    RegionsAreRead(p, 0, false);
    StaysWithinIff(Code, false, p, d, 0, closed, RegionsOf(p));
  }

  predicate IsBlank(p: string)
  {
    forall k | 0 <= k < |p| :: IsSpace(p[k])
  }

  // Where the statement in a piece begins and ends.
  function Lead(p: string): (n: nat)
    ensures n <= |p|
  {
    SkipSpaces(p, 0, |p|)
  }

  function Trail(p: string): (n: nat)
    ensures Lead(p) <= n <= |p|
  {
    TrimEnd(p, Lead(p), |p|)
  }

  lemma LeadAndTrail(p: string)
    ensures Trimmed(p) == p[Lead(p)..Trail(p)]
    ensures forall k | 0 <= k < |p| && !(Lead(p) <= k < Trail(p)) :: IsSpace(p[k])
    ensures if IsBlank(p) then Lead(p) == Trail(p)
            else Lead(p) < Trail(p) && !IsSpace(p[Lead(p)]) && !IsSpace(p[Trail(p) - 1])
  {
    SkipSpacesMeans(p, 0, |p|);
    TrimEndMeans(p, Lead(p), |p|);
  }

  function JoinFrom(pieces: seq<string>, k: nat, d: char): string
    requires k <= |pieces|
    decreases |pieces| - k
  {
    if k == |pieces| then []
    else if k + 1 == |pieces| then pieces[k]
    else pieces[k] + [d] + JoinFrom(pieces, k + 1, d)
  }

  function JoinBy(pieces: seq<string>, d: char): string
  {
    JoinFrom(pieces, 0, d)
  }

  /** The statements in the pieces from index k on, with their positions in the join, in which
      piece k starts at offset. */
  function Statements(pieces: seq<string>, k: nat, offset: nat): seq<Sentence>
    requires k <= |pieces|
    decreases |pieces| - k
  {
    if k == |pieces| then []
    else
      (if IsBlank(pieces[k]) then [] else [Sentence(Trimmed(pieces[k]), offset + Lead(pieces[k]))])
      + Statements(pieces, k + 1, offset + |pieces[k]| + 1)
  }

  /** How many blank pieces are directly before a piece. */
  function BlankRun(pieces: seq<string>, k: nat): nat
    requires k <= |pieces|
  {
    if k == 0 || !IsBlank(pieces[k - 1]) then 0 else BlankRun(pieces, k - 1) + 1
  }

  // ---- where the pieces are in the script ----

  ghost predicate OccursAt(p: string, s: string, offset: nat)
  {
    offset + |p| <= |s| && forall k | 0 <= k < |p| :: s[offset + k] == p[k]
  }

  lemma InPiece(s: string, p: string, offset: nat)
    requires OccursAt(p, s, offset)
    ensures forall k | offset <= k < offset + |p| :: s[k] == p[k - offset]
  {
    forall k | offset <= k < offset + |p|
      ensures s[k] == p[k - offset]
    {
      assert s[offset + (k - offset)] == p[k - offset];
    }
  }

  /** The pieces from index k on follow each other in s from offset to its end, a delimiter apart. */
  ghost predicate LaidOut(pieces: seq<string>, k: nat, s: string, d: char, offset: nat)
    requires k <= |pieces|
    decreases |pieces| - k
  {
    k == |pieces|
    || var e := offset + |pieces[k]|;
       && OccursAt(pieces[k], s, offset)
       && (if k + 1 == |pieces| then e == |s| else e < |s| && s[e] == d)
       && LaidOut(pieces, k + 1, s, d, e + 1)
  }

  lemma PartsOf(s: string, offset: nat, p: string, d: char, rest: string)
    requires offset <= |s| && s[offset..] == p + [d] + rest
    ensures var e := offset + |p|; OccursAt(p, s, offset) && e < |s| && s[e] == d && s[e + 1..] == rest
  {
    var joined := p + [d] + rest;
    assert forall i | 0 <= i < |joined| :: s[offset + i] == s[offset..][i] == joined[i];
    assert s[offset + |p| + 1..] == joined[|p| + 1..];
  }

  lemma JoinStarts(s: string, pieces: seq<string>, k: nat, d: char, offset: nat)
    requires k < |pieces| && offset <= |s| && s[offset..] == JoinFrom(pieces, k, d)
    ensures var e := offset + |pieces[k]|;
            && OccursAt(pieces[k], s, offset)
            && (if k + 1 == |pieces| then e == |s|
                else e < |s| && s[e] == d && s[e + 1..] == JoinFrom(pieces, k + 1, d))
  {
    if k + 1 < |pieces| {
      PartsOf(s, offset, pieces[k], d, JoinFrom(pieces, k + 1, d));
    } else {
      assert forall i | 0 <= i < |pieces[k]| :: s[offset + i] == s[offset..][i];
    }
  }

  lemma {:induction false} JoinIsLaidOut(s: string, pieces: seq<string>, k: nat, d: char, offset: nat)
    requires k < |pieces| && offset <= |s| && s[offset..] == JoinFrom(pieces, k, d)
    ensures LaidOut(pieces, k, s, d, offset)
    decreases |pieces| - k
  {
    JoinStarts(s, pieces, k, d, offset);
    if k + 1 < |pieces| {
      JoinIsLaidOut(s, pieces, k + 1, d, offset + |pieces[k]| + 1);
    }
  }

  // ---- scanning one piece ----

  /** The piece stands at offset in s and ends at e, with the delimiter or the end of s behind. */
  ghost predicate IsPlaced(s: string, p: string, d: char, offset: nat, e: nat)
  {
    IsPlain(d) && OccursAt(p, s, offset) && e == offset + |p| && (e < |s| ==> s[e] == d)
  }

  /** A turn inside a piece, at index j of the script and i of the piece, reports nothing. */
  lemma TurnWithin(region: Region, inEscape: bool, s: string, p: string, d: char, offset: nat, e: nat, i: nat, j: nat,
                   last: nat)
    requires IsPlaced(s, p, d, offset, e) && i < |p| && j == offset + i && j + 1 < |s|
    requires StaysWithin(region, inEscape, p, d, i, e < |s|)
    ensures TurnAt(region, inEscape, s, [d], j, last)
         == Turn(NextRegion(region, inEscape, p[i], NextChar(p, i)), !inEscape && p[i] == '\\', last, [])
  {
    OneCharDelim(s, j, d);
    assert s[offset + i] == p[i];
    assert i + 1 < |p| ==> s[offset + (i + 1)] == p[i + 1];
  }

  lemma SilentTurn(region: Region, inEscape: bool, s: string, delim: string, i: nat, last: nat, region': Region,
                   escape': bool)
    requires i < |s| && TurnAt(region, inEscape, s, delim, i, last) == Turn(region', escape', last, [])
    ensures SentencesFrom(region, inEscape, s, delim, i, last) == SentencesFrom(region', escape', s, delim, i + 1, last)
  {
  }

  /** What is reported behind the end e of a piece, with text pending from last on. */
  ghost function Behind(s: string, d: char, last: nat, e: nat): seq<Sentence>
    requires e <= |s|
  {
    if e == |s| then [] else SentencesFrom(Code, false, s, [d], e + 1, last)
  }

  /** What is reported from the end e of a piece on: the text pending there, and what follows. */
  ghost function FromEnd(s: string, d: char, last: nat, e: nat): seq<Sentence>
    requires last <= e <= |s|
  {
    var t := TrimmedRef(s, Ref(last, e));
    Prepend(Flush(s, t, [d]), Behind(s, d, if t.lo < t.hi then e + 1 else last, e))
  }

  lemma TurnAtDelim(inEscape: bool, s: string, d: char, last: nat, e: nat)
    requires IsPlain(d) && last <= e < |s| && s[e] == d
    ensures SentencesFrom(Code, inEscape, s, [d], e, last) == FromEnd(s, d, last, e)
  {
    OneCharDelim(s, e, d);
    var t := TrimmedRef(s, Ref(last, e));
    assert MidRef(|s|, last, e - last) == Ref(last, e);
    assert TurnAt(Code, inEscape, s, [d], e, last)
           == Turn(Code, false, if t.lo < t.hi then e + 1 else last, Flush(s, t, [d]));
  }

  lemma TurnAtEnd(region: Region, inEscape: bool, s: string, p: string, d: char, offset: nat, i: nat, j: nat, last: nat)
    requires IsPlaced(s, p, d, offset, |s|) && i + 1 == |p| && j + 1 == |s| && last <= offset
    requires StaysWithin(region, inEscape, p, d, i, false)
    ensures SentencesFrom(region, inEscape, s, [d], j, last) == FromEnd(s, d, last, |s|)
  {
    OneCharDelim(s, j, d);
    assert s[j] == s[offset + i] == p[i];
    assert MidRef(|s|, last, |s| - last) == Ref(last, |s|);
    var t := TurnAt(region, inEscape, s, [d], j, last);
    assert SentencesFrom(t.region, t.inEscape, s, [d], |s|, t.last) == [];
    assert t.out == Flush(s, TrimmedRef(s, Ref(last, |s|)), [d]);
  }

  lemma PieceEnds(region: Region, inEscape: bool, s: string, p: string, d: char, offset: nat, e: nat, i: nat, j: nat,
                  last: nat)
    requires IsPlaced(s, p, d, offset, e) && i <= |p| && j == offset + i && j < |s| && last <= offset
    requires StaysWithin(region, inEscape, p, d, i, e < |s|) && (i == |p| || j + 1 == |s|)
    ensures SentencesFrom(region, inEscape, s, [d], j, last) == FromEnd(s, d, last, e)
  {
    if i == |p| {
      assert j == e && region == Code;
      TurnAtDelim(inEscape, s, d, last, e);
    } else {
      assert e == |s| && i + 1 == |p|;
      TurnAtEnd(region, inEscape, s, p, d, offset, i, j, last);
    }
  }

  /** What is reported from a place inside a piece, when the piece ends at e. */
  ghost predicate Reports(region: Region, inEscape: bool, s: string, d: char, j: nat, last: nat, out: seq<Sentence>)
  {
    j <= |s| && SentencesFrom(region, inEscape, s, [d], j, last) == out
  }

  lemma OneCharScans(region: Region, inEscape: bool, s: string, p: string, d: char, offset: nat, e: nat, i: nat, j: nat,
                     last: nat, out: seq<Sentence>)
      returns (region': Region, escape': bool)
    requires IsPlaced(s, p, d, offset, e) && i < |p| && j == offset + i && j + 1 < |s|
    requires StaysWithin(region, inEscape, p, d, i, e < |s|) && Reports(region, inEscape, s, d, j, last, out)
    ensures StaysWithin(region', escape', p, d, i + 1, e < |s|) && Reports(region', escape', s, d, j + 1, last, out)
  {
    region', escape' := NextRegion(region, inEscape, p[i], NextChar(p, i)), !inEscape && p[i] == '\\';
    TurnWithin(region, inEscape, s, p, d, offset, e, i, j, last);
    SilentTurn(region, inEscape, s, [d], j, last, region', escape');
  }

  /** Scanning a piece reaches its end with the same text pending. */
  lemma {:induction false} PieceScans(region: Region, inEscape: bool, s: string, p: string, d: char, offset: nat,
                                      e: nat, i: nat, j: nat, last: nat, out: seq<Sentence>)
    requires IsPlaced(s, p, d, offset, e) && i <= |p| && j == offset + i && j < |s| && last <= offset
    requires StaysWithin(region, inEscape, p, d, i, e < |s|) && Reports(region, inEscape, s, d, j, last, out)
    ensures out == FromEnd(s, d, last, e)
    decreases |p| - i
  {
    if i == |p| || j + 1 == |s| {
      PieceEnds(region, inEscape, s, p, d, offset, e, i, j, last);
    } else {
      var region', escape' := OneCharScans(region, inEscape, s, p, d, offset, e, i, j, last, out);
      PieceScans(region', escape', s, p, d, offset, e, i + 1, j + 1, last, out);
    }
  }

  // ---- what is pending at the end of a piece ----

  /** In front of a piece only white space is pending, or a delimiter that was kept. */
  ghost predicate IsPending(s: string, d: char, last: nat, offset: nat, kept: Option<nat>)
  {
    && last <= offset <= |s|
    && match kept
       case None => forall k | last <= k < offset :: IsSpace(s[k])
       case Some(q) => last <= q < offset && s[q] == d && forall k | last <= k < offset && k != q :: IsSpace(s[k])
  }

  lemma TrimIs(s: string, lo: nat, hi: nat, a: nat, b: nat)
    requires lo <= a < b <= hi <= |s| && !IsSpace(s[a]) && !IsSpace(s[b - 1])
    requires forall k | lo <= k < hi && !(a <= k < b) :: IsSpace(s[k])
    ensures TrimmedRef(s, Ref(lo, hi)) == Ref(a, b)
  {
    TrimmedRefMeans(s, Ref(lo, hi));
  }

  lemma TrimBlank(s: string, lo: nat, hi: nat)
    requires lo <= hi <= |s| && forall k | lo <= k < hi :: IsSpace(s[k])
    ensures var t := TrimmedRef(s, Ref(lo, hi)); t.lo == t.hi
  {
    TrimmedRefMeans(s, Ref(lo, hi));
  }

  lemma {:induction false} SpacesStayInCode(p: string, d: char, i: nat, closed: bool)
    requires i <= |p| && IsPiece(p, d, closed) && forall k | 0 <= k < i :: IsSpace(p[k])
    ensures StaysWithin(Code, false, p, d, i, closed)
  {
    if i == 0 {
      PieceIff(p, d, closed);
    } else {
      SpacesStayInCode(p, d, i - 1, closed);
    }
  }

  /** A statement does not begin with the delimiter. */
  lemma NotTheDelim(p: string, d: char, closed: bool)
    requires IsPlain(d) && IsPiece(p, d, closed) && !IsBlank(p)
    ensures Lead(p) < |p| && p[Lead(p)] != d
  {
    LeadAndTrail(p);
    SpacesStayInCode(p, d, Lead(p), closed);
    assert NextRegion(Code, false, d, NextChar(p, Lead(p))) == Code;
  }

  lemma BlankAfterBlank(s: string, p: string, d: char, offset: nat, last: nat)
    requires IsPending(s, d, last, offset, None) && OccursAt(p, s, offset) && IsBlank(p)
    ensures var t := TrimmedRef(s, Ref(last, offset + |p|)); t.lo == t.hi
  {
    InPiece(s, p, offset);
    TrimBlank(s, last, offset + |p|);
  }

  lemma BlankAfterKept(s: string, p: string, d: char, offset: nat, last: nat, q: nat)
    requires !IsSpace(d) && IsPending(s, d, last, offset, Some(q)) && OccursAt(p, s, offset) && IsBlank(p)
    ensures TrimmedRef(s, Ref(last, offset + |p|)) == Ref(q, q + 1)
  {
    InPiece(s, p, offset);
    TrimIs(s, last, offset + |p|, q, q + 1);
  }

  /** The end of what is reported for a statement, and where it begins. */
  function Begin(p: string, offset: nat, kept: Option<nat>): nat
  {
    if kept.Some? then kept.value else offset + Lead(p)
  }

  lemma StatementIsTrimmed(s: string, p: string, d: char, offset: nat, last: nat, kept: Option<nat>)
    requires !IsSpace(d) && IsPending(s, d, last, offset, kept) && OccursAt(p, s, offset) && !IsBlank(p)
    requires Lead(p) < |p| && p[Lead(p)] != d
    ensures var a, b := Begin(p, offset, kept), offset + Trail(p);
            && a < b <= |s| && TrimmedRef(s, Ref(last, offset + |p|)) == Ref(a, b)
            && (b == a + 1 ==> s[a] != d)
  {
    LeadAndTrail(p);
    InPiece(s, p, offset);
    TrimIs(s, last, offset + |p|, Begin(p, offset, kept), offset + Trail(p));
  }

  /** Flushing nothing, the kept delimiter alone, or a statement. */
  lemma FlushIs(s: string, d: char, t: Ref)
    requires t.lo <= t.hi <= |s|
    ensures t.lo == t.hi || (t.hi == t.lo + 1 && s[t.lo] == d) ==> Flush(s, t, [d]) == []
    ensures t.lo < t.hi && (t.hi == t.lo + 1 ==> s[t.lo] != d) ==> Flush(s, t, [d]) == [Sentence(s[t.lo..t.hi], t.lo)]
  {
    assert t.hi == t.lo + 1 ==> s[t.lo + 0] == s[t.lo] && [d][0] == d;
  }

  // ---- the whole script ----

  /** What is reported of the pieces from index k on: the delimiter behind a blank piece is kept
      for the next statement, unless a second blank piece comes first. */
  ghost function Reported(s: string, pieces: seq<string>, k: nat, d: char, offset: nat,
                          kept: Option<nat>): seq<Sentence>
    requires k <= |pieces| && LaidOut(pieces, k, s, d, offset) && (kept.Some? ==> kept.value < offset)
    decreases |pieces| - k
  {
    if k == |pieces| then []
    else
      var p := pieces[k];
      var e := offset + |p|;
      if IsBlank(p) then Reported(s, pieces, k + 1, d, e + 1, if kept.None? then Some(e) else None)
      else
        LeadAndTrail(p);
        var a := Begin(p, offset, kept);
        [Sentence(s[a..offset + Trail(p)], a)] + Reported(s, pieces, k + 1, d, e + 1, None)
  }

  lemma FromEndIs(s: string, d: char, last: nat, e: nat, t: Ref, out: seq<Sentence>)
    requires last <= e <= |s| && TrimmedRef(s, Ref(last, e)) == t && Flush(s, t, [d]) == out
    ensures FromEnd(s, d, last, e) == Prepend(out, Behind(s, d, if t.lo < t.hi then e + 1 else last, e))
  {
  }

  /** A piece that ends at e, with what is pending in front of it. */
  ghost predicate IsAt(s: string, p: string, d: char, offset: nat, e: nat, last: nat, kept: Option<nat>)
  {
    IsPlaced(s, p, d, offset, e) && IsPending(s, d, last, offset, kept)
  }

  /** What a piece adds to the report. */
  lemma BlankReports(s: string, p: string, d: char, offset: nat, e: nat, last: nat)
    requires IsAt(s, p, d, offset, e, last, None) && IsBlank(p)
    ensures FromEnd(s, d, last, e) == Behind(s, d, last, e)
  {
    BlankAfterBlank(s, p, d, offset, last);
    var t := TrimmedRef(s, Ref(last, e));
    FlushIs(s, d, t);
    FromEndIs(s, d, last, e, t, []);
  }

  lemma SecondBlankReports(s: string, p: string, d: char, offset: nat, e: nat, last: nat, q: nat)
    requires IsAt(s, p, d, offset, e, last, Some(q)) && IsBlank(p)
    ensures FromEnd(s, d, last, e) == Behind(s, d, e + 1, e)
  {
    BlankAfterKept(s, p, d, offset, last, q);
    FlushIs(s, d, Ref(q, q + 1));
    FromEndIs(s, d, last, e, Ref(q, q + 1), []);
  }

  lemma StatementReports(s: string, p: string, d: char, offset: nat, e: nat, last: nat, kept: Option<nat>, a: nat,
                         b: nat)
    requires IsAt(s, p, d, offset, e, last, kept) && !IsBlank(p) && Lead(p) < |p| && p[Lead(p)] != d
    requires a == Begin(p, offset, kept) && b == offset + Trail(p)
    ensures a < b <= |s| && FromEnd(s, d, last, e) == [Sentence(s[a..b], a)] + Behind(s, d, e + 1, e)
  {
    StatementIsTrimmed(s, p, d, offset, last, kept);
    FlushIs(s, d, Ref(a, b));
    FromEndIs(s, d, last, e, Ref(a, b), [Sentence(s[a..b], a)]);
  }

  lemma LaidOutAt(pieces: seq<string>, k: nat, s: string, d: char, offset: nat)
    requires k < |pieces| && LaidOut(pieces, k, s, d, offset)
    ensures var e := offset + |pieces[k]|;
            && OccursAt(pieces[k], s, offset) && (e < |s| ==> s[e] == d)
            && (e == |s| <==> k + 1 == |pieces|) && LaidOut(pieces, k + 1, s, d, e + 1)
  {
  }

  lemma BlankIsPassed(s: string, pieces: seq<string>, k: nat, d: char, offset: nat, e: nat, kept: Option<nat>)
    requires k < |pieces| && LaidOut(pieces, k, s, d, offset) && (kept.Some? ==> kept.value < offset)
             && IsBlank(pieces[k])
    requires e == offset + |pieces[k]|
    ensures LaidOut(pieces, k + 1, s, d, e + 1)
    ensures Reported(s, pieces, k, d, offset, kept)
            == Reported(s, pieces, k + 1, d, e + 1, if kept.None? then Some(e) else None)
  {
  }

  lemma StatementIsListed(s: string, pieces: seq<string>, k: nat, d: char, offset: nat, e: nat, kept: Option<nat>,
                          a: nat, b: nat)
    requires k < |pieces| && LaidOut(pieces, k, s, d, offset) && (kept.Some? ==> kept.value < offset)
             && !IsBlank(pieces[k])
    requires e == offset + |pieces[k]| && a == Begin(pieces[k], offset, kept) && b == offset + Trail(pieces[k])
    ensures LaidOut(pieces, k + 1, s, d, e + 1) && a <= b <= |s|
    ensures Reported(s, pieces, k, d, offset, kept)
            == [Sentence(s[a..b], a)] + Reported(s, pieces, k + 1, d, e + 1, None)
  {
    LeadAndTrail(pieces[k]);
  }

  /** Piece k with what is pending in front of it, and the pieces behind it. */
  ghost predicate IsAtPiece(s: string, pieces: seq<string>, k: nat, d: char, offset: nat, e: nat, last: nat,
                            kept: Option<nat>)
  {
    && ArePieces(pieces, d) && k < |pieces| && LaidOut(pieces, k, s, d, offset) && e == offset + |pieces[k]|
    && IsAt(s, pieces[k], d, offset, e, last, kept)
  }

  lemma PieceIsScanned(s: string, pieces: seq<string>, k: nat, d: char, offset: nat, e: nat, last: nat,
                       kept: Option<nat>)
    requires IsAtPiece(s, pieces, k, d, offset, e, last, kept)
    ensures offset < |s| ==> SentencesFrom(Code, false, s, [d], offset, last) == FromEnd(s, d, last, e)
    ensures !IsBlank(pieces[k]) ==> Lead(pieces[k]) < |pieces[k]| && pieces[k][Lead(pieces[k])] != d
  {
    var p := pieces[k];
    LaidOutAt(pieces, k, s, d, offset);
    assert IsPiece(p, d, e < |s|);
    PieceIff(p, d, e < |s|);
    if offset < |s| {
      PieceScans(Code, false, s, p, d, offset, e, 0, offset, last, SentencesFrom(Code, false, s, [d], offset, last));
    }
    if !IsBlank(p) {
      NotTheDelim(p, d, e < |s|);
    }
  }

  lemma StatementStep(s: string, pieces: seq<string>, k: nat, d: char, offset: nat, e: nat, last: nat,
                      kept: Option<nat>)
    requires IsAtPiece(s, pieces, k, d, offset, e, last, kept) && !IsBlank(pieces[k])
             && LaidOut(pieces, k + 1, s, d, e + 1)
    requires Behind(s, d, e + 1, e) == Reported(s, pieces, k + 1, d, e + 1, None)
    ensures SentencesFrom(Code, false, s, [d], offset, last) == Reported(s, pieces, k, d, offset, kept)
  {
    var a, b := Begin(pieces[k], offset, kept), offset + Trail(pieces[k]);
    PieceIsScanned(s, pieces, k, d, offset, e, last, kept);
    StatementReports(s, pieces[k], d, offset, e, last, kept, a, b);
    StatementIsListed(s, pieces, k, d, offset, e, kept, a, b);
  }

  lemma BlankStep(s: string, pieces: seq<string>, k: nat, d: char, offset: nat, e: nat, last: nat)
    requires IsAtPiece(s, pieces, k, d, offset, e, last, None) && IsBlank(pieces[k])
             && LaidOut(pieces, k + 1, s, d, e + 1)
    requires Behind(s, d, last, e) == Reported(s, pieces, k + 1, d, e + 1, Some(e))
    ensures SentencesFrom(Code, false, s, [d], offset, last) == Reported(s, pieces, k, d, offset, None)
  {
    PieceIsScanned(s, pieces, k, d, offset, e, last, None);
    BlankReports(s, pieces[k], d, offset, e, last);
    BlankIsPassed(s, pieces, k, d, offset, e, None);
  }

  lemma SecondBlankStep(s: string, pieces: seq<string>, k: nat, d: char, offset: nat, e: nat, last: nat, q: nat)
    requires IsAtPiece(s, pieces, k, d, offset, e, last, Some(q)) && IsBlank(pieces[k])
             && LaidOut(pieces, k + 1, s, d, e + 1)
    requires Behind(s, d, e + 1, e) == Reported(s, pieces, k + 1, d, e + 1, None)
    ensures SentencesFrom(Code, false, s, [d], offset, last) == Reported(s, pieces, k, d, offset, Some(q))
  {
    PieceIsScanned(s, pieces, k, d, offset, e, last, Some(q));
    SecondBlankReports(s, pieces[k], d, offset, e, last, q);
    BlankIsPassed(s, pieces, k, d, offset, e, Some(q));
  }

  lemma {:induction false} PiecesReported(s: string, pieces: seq<string>, k: nat, d: char, offset: nat, last: nat,
                                          kept: Option<nat>)
    requires IsPlain(d) && k < |pieces| && LaidOut(pieces, k, s, d, offset) && IsPending(s, d, last, offset, kept)
    requires ArePieces(pieces, d)
    ensures SentencesFrom(Code, false, s, [d], offset, last) == Reported(s, pieces, k, d, offset, kept)
    decreases |pieces| - k, 0
  {
    var p, e := pieces[k], offset + |pieces[k]|;
    LaidOutAt(pieces, k, s, d, offset);
    assert IsAtPiece(s, pieces, k, d, offset, e, last, kept);
    if IsBlank(p) && kept.None? {
      RestReported(s, pieces, k, d, e, last, Some(e), p, offset);
      BlankStep(s, pieces, k, d, offset, e, last);
    } else {
      RestReported(s, pieces, k, d, e, e + 1, None, p, offset);
      if IsBlank(p) {
        SecondBlankStep(s, pieces, k, d, offset, e, last, kept.value);
      } else {
        StatementStep(s, pieces, k, d, offset, e, last, kept);
      }
    }
  }

  lemma {:induction false} RestReported(s: string, pieces: seq<string>, k: nat, d: char, e: nat, last: nat,
                                        kept: Option<nat>,
                                        p: string, offset: nat)
    requires IsPlain(d) && ArePieces(pieces, d) && k < |pieces| && LaidOut(pieces, k + 1, s, d, e + 1)
    requires p == pieces[k] && OccursAt(p, s, offset) && e == offset + |p| <= |s|
    requires (e == |s| <==> k + 1 == |pieces|) && (e < |s| ==> s[e] == d) && (kept.Some? ==> kept.value == e)
    requires if kept.Some? then IsBlank(p) && IsPending(s, d, last, offset, None) else last == e + 1
    ensures Behind(s, d, last, e) == Reported(s, pieces, k + 1, d, e + 1, kept)
    decreases |pieces| - k - 1, 1
  {
    if e < |s| {
      if kept.Some? {
        PendingBehind(s, p, d, offset, last);
      }
      PiecesReported(s, pieces, k + 1, d, e + 1, last, kept);
    }
  }

  /** Behind the first blank piece its delimiter is pending. */
  lemma PendingBehind(s: string, p: string, d: char, offset: nat, last: nat)
    requires IsPending(s, d, last, offset, None) && OccursAt(p, s, offset) && IsBlank(p)
    requires offset + |p| < |s| && s[offset + |p|] == d
    ensures IsPending(s, d, last, offset + |p| + 1, Some(offset + |p|))
  {
    InPiece(s, p, offset);
  }

  /** Exactly what is reported for pieces put together, whatever blank ones are among them. */
  lemma JoinReported(pieces: seq<string>, d: char)
    requires IsPlain(d) && pieces != [] && ArePieces(pieces, d)
    ensures var s := JoinBy(pieces, d);
            LaidOut(pieces, 0, s, d, 0) && SentencesOf(s, [d]) == Reported(s, pieces, 0, d, 0, None)
  {
    var s := JoinBy(pieces, d);
    assert s[0..] == s;
    JoinIsLaidOut(s, pieces, 0, d, 0);
    PiecesReported(s, pieces, 0, d, 0, 0, None);
  }

  // ---- when exactly the statements are reported ----

  predicate RunIsOdd(pieces: seq<string>, k: nat)
    requires k <= |pieces|
  {
    k > 0 && IsBlank(pieces[k - 1]) && !RunIsOdd(pieces, k - 1)
  }

  lemma {:induction false} OddRuns(pieces: seq<string>, k: nat)
    requires k <= |pieces|
    ensures RunIsOdd(pieces, k) <==> BlankRun(pieces, k) % 2 == 1
  {
    if k > 0 {
      OddRuns(pieces, k - 1);
    }
  }

  ghost predicate NoneOddFrom(pieces: seq<string>, k: nat)
    requires k <= |pieces|
    decreases |pieces| - k
  {
    k == |pieces| || ((IsBlank(pieces[k]) || !RunIsOdd(pieces, k)) && NoneOddFrom(pieces, k + 1))
  }

  ghost predicate IsAsMeant(s: string, pieces: seq<string>, k: nat, d: char, offset: nat, kept: Option<nat>)
    requires k <= |pieces| && LaidOut(pieces, k, s, d, offset) && (kept.Some? ==> kept.value < offset)
  {
    Reported(s, pieces, k, d, offset, kept) == Statements(pieces, k, offset)
  }

  /** The sentence reported for a statement, and the one that is meant. */
  lemma StatementHeads(s: string, pieces: seq<string>, k: nat, d: char, offset: nat, e: nat, kept: Option<nat>)
      returns (x: Sentence, y: Sentence)
    requires k < |pieces| && LaidOut(pieces, k, s, d, offset) && (kept.Some? ==> kept.value < offset)
             && !IsBlank(pieces[k])
    requires e == offset + |pieces[k]|
    ensures LaidOut(pieces, k + 1, s, d, e + 1)
    ensures Reported(s, pieces, k, d, offset, kept) == [x] + Reported(s, pieces, k + 1, d, e + 1, None)
    ensures Statements(pieces, k, offset) == [y] + Statements(pieces, k + 1, e + 1)
    ensures x == y <==> kept.None?
  {
    var p := pieces[k];
    var a, b := Begin(p, offset, kept), offset + Trail(p);
    StatementIsListed(s, pieces, k, d, offset, e, kept, a, b);
    x, y := Sentence(s[a..b], a), Sentence(Trimmed(p), offset + Lead(p));
    StatementComesFirst(pieces, k, offset, e, y);
    StatementIff(s, p, offset, kept, a, b);
  }

  lemma StatementMeantIff(s: string, pieces: seq<string>, k: nat, d: char, offset: nat, e: nat, kept: Option<nat>)
    requires k < |pieces| && LaidOut(pieces, k, s, d, offset) && (kept.Some? ==> kept.value < offset)
             && !IsBlank(pieces[k])
    requires e == offset + |pieces[k]| && LaidOut(pieces, k + 1, s, d, e + 1)
    ensures IsAsMeant(s, pieces, k, d, offset, kept) <==> kept.None? && IsAsMeant(s, pieces, k + 1, d, e + 1, None)
  {
    var x, y := StatementHeads(s, pieces, k, d, offset, e, kept);
    ConsMeantIff(Reported(s, pieces, k, d, offset, kept), Statements(pieces, k, offset), x, y,
                 Reported(s, pieces, k + 1, d, e + 1, None), Statements(pieces, k + 1, e + 1));
  }

  lemma BlankMeantIff(s: string, pieces: seq<string>, k: nat, d: char, offset: nat, e: nat, kept: Option<nat>,
                      next: Option<nat>)
    requires k < |pieces| && LaidOut(pieces, k, s, d, offset) && (kept.Some? ==> kept.value < offset)
             && IsBlank(pieces[k])
    requires e == offset + |pieces[k]| && LaidOut(pieces, k + 1, s, d, e + 1)
    requires next == if kept.None? then Some(e) else None
    requires IsAsMeant(s, pieces, k + 1, d, e + 1, next) <==> NoneOddFrom(pieces, k + 1)
    ensures IsAsMeant(s, pieces, k, d, offset, kept) <==> NoneOddFrom(pieces, k)
  {
    BlankIsPassed(s, pieces, k, d, offset, e, kept);
    BlankHasNone(pieces, k, offset, e);
  }

  lemma NextRun(pieces: seq<string>, k: nat)
    requires k < |pieces|
    ensures RunIsOdd(pieces, k + 1) == (IsBlank(pieces[k]) && !RunIsOdd(pieces, k))
    ensures NoneOddFrom(pieces, k) == ((IsBlank(pieces[k]) || !RunIsOdd(pieces, k)) && NoneOddFrom(pieces, k + 1))
  {
  }

  lemma {:induction false} ReportedIff(s: string, pieces: seq<string>, k: nat, d: char, offset: nat, kept: Option<nat>)
    requires k <= |pieces| && LaidOut(pieces, k, s, d, offset) && (kept.Some? ==> kept.value < offset)
    requires kept.Some? <==> RunIsOdd(pieces, k)
    ensures IsAsMeant(s, pieces, k, d, offset, kept) <==> NoneOddFrom(pieces, k)
    decreases |pieces| - k
  {
    if k < |pieces| {
      var e := offset + |pieces[k]|;
      LaidOutAt(pieces, k, s, d, offset);
      NextRun(pieces, k);
      if IsBlank(pieces[k]) {
        var next := if kept.None? then Some(e) else None;
        ReportedIff(s, pieces, k + 1, d, e + 1, next);
        BlankMeantIff(s, pieces, k, d, offset, e, kept, next);
      } else {
        ReportedIff(s, pieces, k + 1, d, e + 1, None);
        StatementMeantIff(s, pieces, k, d, offset, e, kept);
      }
    }
  }

  lemma BlankHasNone(pieces: seq<string>, k: nat, offset: nat, e: nat)
    requires k < |pieces| && IsBlank(pieces[k]) && e == offset + |pieces[k]|
    ensures Statements(pieces, k, offset) == Statements(pieces, k + 1, e + 1)
    ensures RunIsOdd(pieces, k + 1) == !RunIsOdd(pieces, k) && NoneOddFrom(pieces, k) == NoneOddFrom(pieces, k + 1)
  {
    NothingBefore(Statements(pieces, k + 1, e + 1));
  }

  lemma StatementComesFirst(pieces: seq<string>, k: nat, offset: nat, e: nat, y: Sentence)
    requires k < |pieces| && !IsBlank(pieces[k]) && e == offset + |pieces[k]|
    requires y == Sentence(Trimmed(pieces[k]), offset + Lead(pieces[k]))
    ensures Statements(pieces, k, offset) == [y] + Statements(pieces, k + 1, e + 1)
  {
  }

  lemma StatementIff(s: string, p: string, offset: nat, kept: Option<nat>, a: nat, b: nat)
    requires OccursAt(p, s, offset) && (kept.Some? ==> kept.value < offset)
    requires a == Begin(p, offset, kept) && b == offset + Trail(p)
    ensures a <= b && (Sentence(s[a..b], a) == Sentence(Trimmed(p), offset + Lead(p)) <==> kept.None?)
  {
    LeadAndTrail(p);
    assert s[offset + Lead(p)..offset + Trail(p)] == p[Lead(p)..Trail(p)];
  }

  lemma ConsMeantIff(reported: seq<Sentence>, meant: seq<Sentence>, x: Sentence, y: Sentence,
                     xs: seq<Sentence>, ys: seq<Sentence>)
    requires reported == [x] + xs && meant == [y] + ys
    ensures reported == meant <==> x == y && xs == ys
  {
    assert ([x] + xs)[0] == x && ([y] + ys)[0] == y;
    assert ([x] + xs)[1..] == xs && ([y] + ys)[1..] == ys;
  }

  /** Every run of blank pieces in front of a statement is even. */
  ghost predicate AllRunsEven(pieces: seq<string>)
  {
    forall k | 0 <= k < |pieces| && !IsBlank(pieces[k]) :: BlankRun(pieces, k) % 2 == 0
  }

  lemma {:induction false} EvenFrom(pieces: seq<string>, k: nat)
    requires k <= |pieces|
    ensures NoneOddFrom(pieces, k)
       <==> forall j | k <= j < |pieces| && !IsBlank(pieces[j]) :: BlankRun(pieces, j) % 2 == 0
    decreases |pieces| - k
  {
    if k < |pieces| {
      OddRuns(pieces, k);
      EvenFrom(pieces, k + 1);
    }
  }

  /** Splitting pieces that were put together gives exactly the statements in them, trimmed, with
      their positions, if and only if every run of blank pieces in front of a statement is even:
      of each two blank pieces in a row the delimiters cancel, and the delimiter behind an odd
      one sticks to the statement that follows. */
  lemma PiecesRoundTripIff(pieces: seq<string>, d: char)
    requires IsPlain(d) && ArePieces(pieces, d)
    ensures SentencesOf(JoinBy(pieces, d), [d]) == Statements(pieces, 0, 0) <==> AllRunsEven(pieces)
  {
    if pieces != [] {
      JoinReported(pieces, d);
      ReportedIff(JoinBy(pieces, d), pieces, 0, d, 0, None);
      EvenFrom(pieces, 0);
    }
  }

  /** A statement that may be the last one. */
  ghost predicate IsStatement(p: string, d: char)
  {
    IsTrimmed(p) && IsPiece(p, d, false)
  }

  /** The statements with the positions they take in their join, from index k on. */
  function Positioned(statements: seq<string>, k: nat, offset: nat): seq<Sentence>
    requires k <= |statements|
    decreases |statements| - k
  {
    if k == |statements| then []
    else [Sentence(statements[k], offset)] + Positioned(statements, k + 1, offset + |statements[k]| + 1)
  }

  lemma StatementAsItIs(st: string)
    requires IsTrimmed(st)
    ensures !IsBlank(st) && Lead(st) == 0 && Trimmed(st) == st
  {
    TrimmedFixpoint(st);
    LeadAndTrail(st);
  }

  lemma {:induction false} StatementsAsTheyAre(statements: seq<string>, k: nat, offset: nat)
    requires k <= |statements| && forall st | st in statements :: IsTrimmed(st)
    ensures Statements(statements, k, offset) == Positioned(statements, k, offset)
    decreases |statements| - k
  {
    if k < |statements| {
      assert statements[k] in statements;
      StatementAsItIs(statements[k]);
      var e := offset + |statements[k]|;
      StatementComesFirst(statements, k, offset, e, Sentence(statements[k], offset));
      StatementsAsTheyAre(statements, k + 1, e + 1);
    }
  }

  lemma NoBlankRuns(statements: seq<string>)
    requires forall st | st in statements :: IsTrimmed(st)
    ensures AllRunsEven(statements)
  {
    forall k | 0 <= k < |statements|
      ensures BlankRun(statements, k) == 0
    {
      if k > 0 {
        assert statements[k - 1] in statements;
        StatementAsItIs(statements[k - 1]);
      }
    }
  }

  /** Splitting joined statements gives them back, with their positions. */
  lemma StatementRoundTrip(statements: seq<string>, d: char)
    requires IsPlain(d) && ArePieces(statements, d) && forall st | st in statements :: IsTrimmed(st)
    ensures SentencesOf(JoinBy(statements, d), [d]) == Positioned(statements, 0, 0)
  {
    StatementsAsTheyAre(statements, 0, 0);
    PiecesRoundTripIff(statements, d);
    NoBlankRuns(statements);
  }

  // ---- every script is put together from pieces ----

  /** A plain delimiter leads from code to code, and nowhere else. */
  lemma DelimInCode(region: Region, inEscape: bool, d: char, next: char)
    requires IsPlain(d)
    ensures NextRegion(region, inEscape, d, next) == Code <==> region == Code
  {
  }

  /** For the region it makes no difference whether a character is the last one or the delimiter
      follows. */
  lemma LastOrDelim(region: Region, inEscape: bool, c: char, d: char)
    requires IsPlain(d)
    ensures NextRegion(region, inEscape, c, d) == NextRegion(region, inEscape, c, NUL)
  {
  }

  lemma {:induction false} StaysBehind(region: Region, inEscape: bool, c: char, p: string, d: char, i: nat,
                                       closed: bool)
    requires i <= |p|
    ensures StaysWithin(region, inEscape, [c] + p, d, i + 1, closed) == StaysWithin(region, inEscape, p, d, i, closed)
    decreases |p| - i
  {
    if i < |p| {
      assert NextChar([c] + p, i + 1) == NextChar(p, i);
      StaysBehind(NextRegion(region, inEscape, p[i], NextChar(p, i)), !inEscape
        && p[i] == '\\', c, p, d, i + 1, closed);
    }
  }

  lemma {:induction false} JoinSame(a: seq<string>, b: seq<string>, k: nat, d: char)
    requires 0 < k <= |a| && |b| + 1 == |a| && forall i | k <= i < |a| :: a[i] == b[i - 1]
    ensures JoinFrom(a, k, d) == JoinFrom(b, k - 1, d)
    decreases |a| - k
  {
    if k < |a| {
      JoinSame(a, b, k + 1, d);
    }
  }

  lemma JoinEmpty(rest: seq<string>, d: char)
    requires rest != []
    ensures JoinBy([""] + rest, d) == [d] + JoinBy(rest, d)
  {
    JoinSame([""] + rest, rest, 1, d);
    NothingBefore([d]);
  }

  lemma {:induction false} JoinTail(a: seq<string>, b: seq<string>, k: nat, d: char)
    requires 0 < k <= |a| == |b| && forall i | k <= i < |a| :: a[i] == b[i]
    ensures JoinFrom(a, k, d) == JoinFrom(b, k, d)
    decreases |a| - k
  {
    if k < |a| {
      JoinTail(a, b, k + 1, d);
    }
  }

  lemma JoinLonger(c: char, rest: seq<string>, d: char)
    requires rest != []
    ensures JoinBy(rest[0 := [c] + rest[0]], d) == [c] + JoinBy(rest, d)
  {
    var longer := rest[0 := [c] + rest[0]];
    JoinTail(longer, rest, 1, d);
    if |rest| > 1 {
      Regroup([c], rest[0], [d]);
      Regroup([c], rest[0] + [d], JoinFrom(rest, 1, d));
    }
  }

  lemma JoinHead(pieces: seq<string>, d: char)
    requires pieces != []
    ensures var s := JoinBy(pieces, d);
            if pieces[0] != [] then s != [] && s[0] == pieces[0][0]
            else if |pieces| > 1 then s != [] && s[0] == d else s == []
  {
    if |pieces| > 1 {
      Regroup(pieces[0], [d], JoinFrom(pieces, 1, d));
    }
  }

  /** The pieces of a script, the first of which is entered in a region. */
  lemma {:induction false} CutUp(region: Region, inEscape: bool, s: string, d: char) returns (pieces: seq<string>)
    requires IsPlain(d)
    ensures pieces != [] && JoinBy(pieces, d) == s && StaysWithin(region, inEscape, pieces[0], d, 0, |pieces| > 1)
    ensures forall i | 1 <= i < |pieces| :: StaysWithin(Code, false, pieces[i], d, 0, i + 1 < |pieces|)
    decreases s
  {
    if s == [] {
      pieces := [""];
    } else {
      var region' := NextRegion(region, inEscape, s[0], NextChar(s, 0));
      var rest := CutUp(region', !inEscape && s[0] == '\\', s[1..], d);
      if region' == Code && s[0] == d {
        DelimInCode(region, inEscape, d, NextChar(s, 0));
        pieces := [""] + rest;
        JoinEmpty(rest, d);
      } else {
        pieces := rest[0 := [s[0]] + rest[0]];
        JoinLonger(s[0], rest, d);
        JoinHead(rest, d);
        LastOrDelim(region, inEscape, s[0], d);
        assert NextRegion(region, inEscape, s[0], NextChar(pieces[0], 0)) == region';
        StaysBehind(region', !inEscape && s[0] == '\\', s[0], rest[0], d, 0, |rest| > 1);
      }
      assert s == [s[0]] + s[1..];
    }
  }

  /** So what is reported is known for all of them, also for those that end in a comment. */
  lemma ScriptIsPieces(s: string, d: char) returns (pieces: seq<string>)
    requires IsPlain(d)
    ensures ArePieces(pieces, d) && JoinBy(pieces, d) == s
    ensures SentencesOf(s, [d]) == Statements(pieces, 0, 0) <==> AllRunsEven(pieces)
  {
    pieces := CutUp(Code, false, s, d);
    forall i | 0 <= i < |pieces|
      ensures IsPiece(pieces[i], d, i + 1 < |pieces|)
    {
      PieceIff(pieces[i], d, i + 1 < |pieces|);
    }
    PiecesRoundTripIff(pieces, d);
  }

  // ---- examples ----

  lemma WithEmptyPieces(st: string)
    ensures JoinBy(["", st], ';') == ";" + st && JoinBy(["", "", st], ';') == ";" + (";" + st)
  {
    JoinEmpty([st], ';');
    assert [""] + [st] == ["", st];
    JoinEmpty(["", st], ';');
    assert [""] + ["", st] == ["", "", st];
  }

  /** One delimiter too many sticks to the next statement. */
  lemma DelimiterSticks(st: string)
    requires IsStatement(st, ';')
    ensures SentencesOf(";" + st, ";") == [Sentence(";" + st, 0)]
  {
    WithEmptyPieces(st);
    JoinReported(["", st], ';');
    StuckIsReported(";" + st, st);
  }

  lemma StuckIsReported(s: string, st: string)
    requires IsStatement(st, ';') && s == ";" + st && LaidOut(["", st], 0, s, ';', 0)
    ensures Reported(s, ["", st], 0, ';', 0, None) == [Sentence(s, 0)]
  {
    var pieces := ["", st];
    StatementAsItIs(st);
    LeadAndTrail(st);
    BlankIsPassed(s, pieces, 0, ';', 0, 0, None);
    StatementIsListed(s, pieces, 1, ';', 1, |s|, Some(0), 0, |s|);
    assert s[0..|s|] == s;
  }

  /** Two cancel. */
  lemma DelimitersCancel(st: string)
    requires IsStatement(st, ';')
    ensures SentencesOf(";" + (";" + st), ";") == [Sentence(st, 2)]
  {
    var pieces := ["", "", st];
    WithEmptyPieces(st);
    StatementAsItIs(st);
    BlankHasNone(pieces, 0, 0, 0);
    BlankHasNone(pieces, 1, 1, 1);
    StatementComesFirst(pieces, 2, 2, |st| + 2, Sentence(st, 2));
    EvenFrom(pieces, 0);
    PiecesRoundTripIff(pieces, ';');
  }
}
