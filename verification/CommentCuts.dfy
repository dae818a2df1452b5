/** What is left of a printed comment when the parser has taken an ON UPDATE clause inside of
    it for one in front of it, and cut off as many characters.
 */
module CommentCuts {
  import opened QtStrings
  import opened Schema
  import opened Escaping
  import opened Identifiers
  import opened Patterns
  import opened TableStructureParser
  import opened QuotedTexts
  import opened ColumnRoundTrip

  // ---- counting the characters that are never escaped ----

  predicate IsBare(c: char)
  {
    c != QUOTE && c != BACKSLASH
  }

  function BareCount(s: string): nat
  {
    if s == [] then 0 else (if IsBare(s[0]) then 1 else 0) + BareCount(s[1..])
  }

  lemma {:induction false} BareSum(a: string, b: string)
    ensures BareCount(a + b) == BareCount(a) + BareCount(b)
  {
    if a == [] {
      NothingBefore(b);
    } else {
      assert (a + b)[1..] == a[1..] + b;
      BareSum(a[1..], b);
    }
  }

  lemma BareSplit(s: string, i: nat)
    requires i <= |s|
    ensures BareCount(s) == BareCount(s[..i]) + BareCount(s[i..])
  {
    BareSum(s[..i], s[i..]);
    assert s[..i] + s[i..] == s;
  }

  lemma BareParts(s: string, a: nat, b: nat)
    requires a <= b <= |s|
    ensures BareCount(s) == BareCount(s[..a]) + BareCount(s[a..b]) + BareCount(s[b..])
  {
    BareSplit(s, b);
    BareSplit(s[..b], a);
    assert s[..b][..a] == s[..a];
  }

  lemma {:induction false} AllBare(s: string)
    requires forall k | 0 <= k < |s| :: IsBare(s[k])
    ensures BareCount(s) == |s|
  {
    if s != [] {
      AllBare(s[1..]);
    }
  }

  lemma {:induction false} EscapedBare(s: string)
    ensures BareCount(Escaped(s)) == BareCount(s)
  {
    if s != [] {
      EscapedBare(s[1..]);
      EscapedHead(s);
      var head := if IsBare(s[0]) then [s[0]] else [s[0], s[0]];
      BareSum(head, Escaped(s[1..]));
    }
  }

  // ---- comments are slices ----

  lemma TrimmedSlice(s: string) returns (a: nat)
    ensures a + |Trimmed(s)| <= |s| && Trimmed(s) == s[a..a + |Trimmed(s)|]
  {
    a := SkipSpaces(s, 0, |s|);
  }

  lemma MatchedPlace(u: string) returns (start: nat, stop: nat)
    requires QuotedStr(u).0.Some?
    ensures start <= stop < |u| && u[start..stop] == QuotedStr(u).0.value && u[stop] == QUOTE
  {
    start := IndexOf(u, QUOTE) + 1;
    stop := Stop(u, start).value;
  }

  lemma SliceOfSlice(t: string, n: nat, u: string, start: nat, stop: nat)
    requires n + |u| <= |t| && u == t[n..n + |u|] && start <= stop < |u|
    ensures t[n + start..n + stop] == u[start..stop] && t[n + stop] == u[stop]
  {
    assert forall k | 0 <= k < |u| :: u[k] == t[n + k];
  }

  /** A comment that is found stands behind the word, and before a quote. */
  lemma CommentIsSlice(t: string) returns (a: nat, b: nat)
    requires Comment(t) != []
    ensures a <= b < |t| && t[a..b] == Comment(t) && t[b] == QUOTE
    ensures BareCount(t[..a]) >= 7
  {
    CommentIsQuoted(t);
    var n, u := QuotedPart(t, Spaces(t), Comment(t));
    var start, stop := MatchedPlace(u);
    SliceOfSlice(t, n, u, start, stop);
    a, b := n + start, n + stop;
    WordIsBare(t, Spaces(t), a);
  }

  /** Where the quoted text is looked for. */
  lemma QuotedPart(t: string, w: nat, s: string) returns (n: nat, u: string)
    requires w + 7 <= |t| && QuotedStr(Trimmed(t[w..][7..])).0 == Some(s)
    ensures w + 7 <= n && n + |u| <= |t| && u == t[n..n + |u|] && QuotedStr(u).0 == Some(s)
  {
    var behind := t[w..][7..];
    u := Trimmed(behind);
    var i := TrimmedSlice(behind);
    n := w + 7 + i;
    SliceBehindWord(t, w, i, |u|);
  }

  lemma CommentIsQuoted(t: string)
    requires Comment(t) != []
    ensures Spaces(t) + 7 <= |t| && BeginsWith(t[Spaces(t)..], "COMMENT")
    ensures QuotedStr(Trimmed(t[Spaces(t)..][7..])).0 == Some(Comment(t))
  {
  }

  lemma SliceBehindWord(t: string, w: nat, i: nat, m: nat)
    requires w + 7 + i + m <= |t|
    ensures t[w..][7..][i..i + m] == t[w + 7 + i..w + 7 + i + m]
  {
    assert t[w..][7..] == t[w + 7..];
  }

  lemma WordIsBare(t: string, w: nat, a: nat)
    requires w + 7 <= a <= |t| && BeginsWith(t[w..], "COMMENT")
    ensures BareCount(t[..a]) >= 7
  {
    var word := t[w..w + 7];
    forall k | 0 <= k < 7
      ensures IsBare(word[k])
    {
      assert ToLowerChar(t[w..][k]) == ToLowerChar("COMMENT"[k]);
    }
    AllBare(word);
    BareSplit(t[..a], w);
    assert t[..a][w..][..7] == word;
    BareSplit(t[..a][w..], 7);
  }

  // ---- what a cut leaves ----

  /** When more than the word COMMENT is cut off, the comment does not come back. */
  lemma CutInside(s: string, tail: string, t: string, i: nat)
    requires s != [] && IsLineEnd(tail)
    requires i <= |" " + Quoted(s, tail)| && t == (" " + Quoted(s, tail))[i..]
    ensures Comment(t) != s
  {
    if Comment(t) == s {
      var a, b := CommentIsSlice(t);
      BareSplit(" " + Quoted(s, tail), i);
      QuotedBare(s, tail);
      BareParts(t, a, b);
      TailIsBehind(s, tail, t, i, b);
      assert false;
    }
  }

  lemma QuotedBare(s: string, tail: string)
    ensures BareCount(" " + Quoted(s, tail)) == 1 + BareCount(s) + BareCount(tail)
  {
    EscapedBare(s);
    BareSum([QUOTE], tail);
    BareSum(Escaped(s), [QUOTE] + tail);
    BareSum([QUOTE], Escaped(s) + ([QUOTE] + tail));
    BareSum(" ", Quoted(s, tail));
  }

  /** The tail holds no quote, so it is behind every quote. */
  lemma TailIsBehind(s: string, tail: string, t: string, i: nat, b: nat)
    requires IsLineEnd(tail) && i <= |" " + Quoted(s, tail)| && t == (" " + Quoted(s, tail))[i..]
    requires b < |t| && t[b] == QUOTE
    ensures BareCount(t[b..]) >= BareCount(tail)
  {
    var whole := " " + Quoted(s, tail);
    var n := |whole| - |tail|;
    assert forall k | 0 <= k < |tail| :: whole[n + k] == tail[k];
    assert t[b] == whole[i + b];
    assert i + b < n;
    assert t[b..] == whole[i + b..];
    BareSplit(whole[i + b..], n - i - b);
    assert whole[i + b..][n - i - b..] == tail;
  }

  lemma NoComment(t: string)
    requires t != [] && !IsSpace(t[0]) && ToLowerChar(t[0]) != 'c'
    ensures Comment(t) == []
  {
    OtherWord(t, "COMMENT");
  }

  /** After a cut behind the first character of l, the comment comes back exactly when it is
      plain and the cut is just in front of it. */
  lemma CutIff(c: Column, tail: string, l: string, m: nat)
    requires c.comment != [] && IsLineEnd(tail) && 1 <= m <= |l + (" " + BareComment(c, tail))|
    requires forall k | 1 <= k < |l| :: !IsSpace(l[k]) && ToLowerChar(l[k]) != 'c'
    ensures Comment((l + (" " + BareComment(c, tail)))[m..]) == c.comment
       <==> IsPlain(c.comment) && (m == |l| || m == |l| + 1)
  {
    var x := BareComment(c, tail);
    var t := (l + (" " + x))[m..];
    if m < |l| {
      assert t[0] == l[m];
      NoComment(t);
    } else if m <= |l| + 1 {
      CommentShape(c, tail);
      CommentParses(c, tail);
      assert t == if m == |l| then " " + x else x;
    } else {
      assert t == x[m - |l| - 1..];
      CutBehind(c, tail, m - |l| - 1);
    }
  }

  lemma CutBehind(c: Column, tail: string, j: nat)
    requires c.comment != [] && IsLineEnd(tail) && 1 <= j <= |BareComment(c, tail)|
    ensures Comment(BareComment(c, tail)[j..]) != c.comment
  {
    var q := " " + Quoted(c.comment, tail);
    var x := "COMMENT" + q;
    if j < 7 {
      assert x[j..][0] == "COMMENT"[j];
      NoComment(x[j..]);
    } else {
      assert x[j..] == q[j - 7..];
      CutInside(c.comment, tail, x[j..], j - 7);
    }
  }
}
