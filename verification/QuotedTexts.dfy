/** matchQuotedStr against the literals the printer writes: exactly the texts without
    quotes and backslashes come back.
 */
module QuotedTexts {
  import opened QtStrings
  import opened Escaping
  import opened Identifiers
  import opened TableStructureParser

  /** A text that is printed as it is. */
  predicate IsPlain(s: string)
  {
    QUOTE !in s && BACKSLASH !in s
  }

  function Escaped(s: string): string
  {
    Prefixed(Prefixed(s, QUOTE, QUOTE), BACKSLASH, BACKSLASH)
  }

  function Quoted(s: string, rest: string): string
  {
    [QUOTE] + (Escaped(s) + ([QUOTE] + rest))
  }

  lemma QuotedIs(s: string, rest: string)
    ensures MySQLEscape(s, false, true) + rest == Quoted(s, rest)
  {
    MySQLEscaped(s);
    QuotesAround(Escaped(s), rest);
  }

  lemma QuotesAround(e: string, rest: string)
    ensures [QUOTE] + e + [QUOTE] + rest == [QUOTE] + (e + ([QUOTE] + rest))
  {
  }

  lemma {:induction false} PlainEscaped(s: string)
    requires IsPlain(s)
    ensures Escaped(s) == s
  {
    if s != [] {
      PlainEscaped(s[1..]);
      EscapedHead(s);
      assert s == [s[0]] + s[1..];
    }
  }

  lemma {:induction false} StopsAt(s: string, i: nat, j: nat)
    requires i <= j < |s| && s[j] == QUOTE && NextChar(s, j) != QUOTE
    requires forall k | i <= k < j :: s[k] != QUOTE
    ensures Stop(s, i) == Some(j)
    decreases j - i
  {
    if i < j {
      StopsAt(s, i + 1, j);
    }
  }

  /** A plain text comes back, with what follows its literal left over. */
  lemma PlainIsMatched(front: string, s: string, rest: string)
    requires IsPlain(s) && QUOTE !in front && (rest == [] || rest[0] != QUOTE)
    ensures QuotedStr(front + Quoted(s, rest)) == (Some(s), rest)
  {
    PlainEscaped(s);
    MatchedAt(front, s, rest, front + ([QUOTE] + (s + ([QUOTE] + rest))));
  }

  lemma MatchedAt(front: string, s: string, rest: string, text: string)
    requires QUOTE !in s && QUOTE !in front && (rest == [] || rest[0] != QUOTE)
    requires text == front + ([QUOTE] + (s + ([QUOTE] + rest)))
    ensures QuotedStr(text) == (Some(s), rest)
  {
    var a := |front| + 1;
    var b := a + |s|;
    FirstOf(front, [QUOTE] + (s + ([QUOTE] + rest)), QUOTE);
    LiteralSlices(front, s, rest, text);
    forall k | a <= k < b
      ensures text[k] != QUOTE
    {
      assert text[a..b][k - a] == text[k];
    }
    StopsAt(text, a, b);
  }

  lemma {:induction false} PassesOver(s: string, i: nat, j: nat)
    requires i <= j <= |s| && forall k | i <= k < j :: s[k] != QUOTE
    ensures Stop(s, i) == Stop(s, j)
    decreases j - i
  {
    if i < j {
      PassesOver(s, i + 1, j);
    }
  }

  lemma DoubledSlices(a: string, x: char, b: string, rest: string, text: string)
    requires text == [QUOTE] + ((a + ([QUOTE, QUOTE, x] + b)) + ([QUOTE] + rest))
    ensures var i, j := 1 + |a|, 4 + |a| + |b|;
            && |text| == j + 1 + |rest| && text[1..i] == a && text[i] == text[i + 1] == QUOTE && text[i + 3..j] == b
            && text[1..j] == a + ([QUOTE, QUOTE, x] + b) && text[j] == QUOTE && text[j + 1..] == rest
  {
    assert text == ([QUOTE] + a) + [QUOTE, QUOTE, x] + b + ([QUOTE] + rest);
  }

  lemma NoQuotesIn(text: string, i: nat, j: nat)
    requires i <= j <= |text| && QUOTE !in text[i..j]
    ensures forall k | i <= k < j :: text[k] != QUOTE
  {
    forall k | i <= k < j
      ensures text[k] != QUOTE
    {
      assert text[k] == text[i..j][k - i];
    }
  }

  /** A doubled quote is passed over together with the character behind it, whatever that is. */
  lemma DoubledIsPassed(a: string, x: char, b: string, rest: string)
    requires QUOTE !in a && QUOTE !in b && (rest == [] || rest[0] != QUOTE)
    ensures var s := a + ([QUOTE, QUOTE, x] + b); QuotedStr([QUOTE] + (s + ([QUOTE] + rest))) == (Some(s), rest)
  {
    var text := [QUOTE] + ((a + ([QUOTE, QUOTE, x] + b)) + ([QUOTE] + rest));
    var i, j := 1 + |a|, 4 + |a| + |b|;
    DoubledSlices(a, x, b, rest, text);
    NoQuotesIn(text, 1, i);
    NoQuotesIn(text, i + 3, j);
    PassesOver(text, 1, i);
    assert j + 1 < |text| ==> text[j + 1] == text[j + 1..][0];
    StopsAt(text, i + 3, j);
  }

  lemma LiteralSlices(front: string, s: string, rest: string, text: string)
    requires text == front + ([QUOTE] + (s + ([QUOTE] + rest)))
    ensures var a := |front| + 1;
            var b := a + |s|;
            && b < |text| && text[a..b] == s && text[b] == QUOTE && text[b + 1..] == rest
            && (b + 1 < |text| ==> rest != [] && text[b + 1] == rest[0])
  {
    assert text == (front + [QUOTE]) + s + ([QUOTE] + rest);
    var b := |front| + 1 + |s|;
    assert b + 1 < |text| ==> text[b + 1] == text[b + 1..][0];
  }

  lemma {:induction false} FirstOf(a: string, b: string, c: char)
    requires c !in a && b != [] && b[0] == c
    ensures IndexOf(a + b, c) == |a|
  {
    if a == [] {
      assert a + b == b;
    } else {
      assert (a + b)[1..] == a[1..] + b;
      FirstOf(a[1..], b, c);
    }
  }

  // ---- other texts do not come back ----

  /** A literal's contents, as the scan would end it: behind t there is a quote, and no other. */
  ghost predicate IsContents(t: string, w: string)
  {
    && |t| < |w| && (forall k | 0 <= k < |t| :: w[k] == t[k])
    && w[|t|] == QUOTE && NextChar(w, |t|) != QUOTE
  }

  lemma ContentsTail(t: string, w: string)
    requires t != [] && IsContents(t, w)
    ensures IsContents(t[1..], w[1..])
  {
    forall k | 0 <= k < |t| - 1
      ensures w[1..][k] == t[1..][k]
    {
      assert w[k + 1] == t[k + 1];
    }
    assert w[1..][|t| - 1] == w[|t|];
    assert |t| + 1 < |w| ==> w[1..][|t|] == w[|t| + 1];
  }

  function Repeat(c: char, n: nat): string
  {
    if n == 0 then [] else [c] + Repeat(c, n - 1)
  }

  lemma LagAtEnd(c: char, n: nat, rest: string)
    requires n >= 1
    ensures !IsContents([], Repeat(c, n) + (Escaped([]) + ([QUOTE] + rest)))
  {
    var tail := Escaped([]) + ([QUOTE] + rest);
    assert tail == [QUOTE] + rest;
    var w := Repeat(c, n) + tail;
    assert w == [c] + (Repeat(c, n - 1) + tail);
    if n == 1 {
      assert Repeat(c, n - 1) + tail == tail;
      assert w[1] == QUOTE;
    } else {
      assert w[1] == c;
    }
  }

  /** When a character was doubled, what is read lags behind what was written, for good. */
  lemma {:induction false} LagStays(t: string, c: char, n: nat, rest: string)
    requires (c == QUOTE || c == BACKSLASH) && n >= 1
    ensures !IsContents(t, Repeat(c, n) + (Escaped(t) + ([QUOTE] + rest)))
  {
    var tail := Escaped(t) + ([QUOTE] + rest);
    var w := Repeat(c, n) + tail;
    assert w == [c] + (Repeat(c, n - 1) + tail);
    if IsContents(t, w) {
      if t == [] {
        LagAtEnd(c, n, rest);
        assert false;
      } else {
        assert t[0] == c;
        ContentsTail(t, w);
        EscapedHead(t);
        var next := Escaped(t[1..]) + ([QUOTE] + rest);
        assert tail == [c, c] + next;
        RepeatMore(c, n - 1, next);
        LagStays(t[1..], c, n + 1, rest);
      }
    }
  }

  lemma {:induction false} RepeatMore(c: char, n: nat, next: string)
    ensures Repeat(c, n) + ([c, c] + next) == Repeat(c, n + 2) + next
  {
    if n == 0 {
      assert Repeat(c, n) + ([c, c] + next) == [c, c] + next;
      assert Repeat(c, 2) == [c] + Repeat(c, 1) && Repeat(c, 1) == [c] + Repeat(c, 0);
    } else {
      RepeatMore(c, n - 1, next);
      assert Repeat(c, n) + ([c, c] + next) == [c] + (Repeat(c, n - 1) + ([c, c] + next));
      assert Repeat(c, n + 2) + next == [c] + (Repeat(c, n + 1) + next);
    }
  }

  lemma {:induction false} OnlyPlainIsContents(t: string, rest: string)
    requires IsContents(t, Escaped(t) + ([QUOTE] + rest))
    ensures IsPlain(t)
  {
    if t != [] {
      var w := Escaped(t) + ([QUOTE] + rest);
      var next := Escaped(t[1..]) + ([QUOTE] + rest);
      EscapedHead(t);
      ContentsTail(t, w);
      if t[0] == QUOTE || t[0] == BACKSLASH {
        assert w == [t[0], t[0]] + next;
        assert w[1..] == [t[0]] + next;
        assert Repeat(t[0], 1) == [t[0]] + Repeat(t[0], 0);
        LagStays(t[1..], t[0], 1, rest);
      } else {
        assert w == [t[0]] + next;
        assert w[1..] == next;
        OnlyPlainIsContents(t[1..], rest);
      }
    }
  }

  lemma MatchedSlice(text: string, s: string) returns (stop: nat)
    requires QuotedStr(text).0 == Some(s)
    ensures 0 <= IndexOf(text, QUOTE) < stop <= |text| && text[IndexOf(text, QUOTE) + 1..stop] == s
  {
    stop := Stop(text, IndexOf(text, QUOTE) + 1).value;
  }

  lemma SliceBehind(front: string, w: string, stop: nat, s: string)
    requires |front| < stop <= |front| + 1 + |w| && (front + ([QUOTE] + w))[|front| + 1..stop] == s
    ensures |s| <= |w| && forall k | 0 <= k < |s| :: w[k] == s[k]
  {
    var text := front + ([QUOTE] + w);
    forall k | 0 <= k < |s|
      ensures w[k] == s[k]
    {
      assert s[k] == text[|front| + 1 + k] == ([QUOTE] + w)[1 + k];
    }
  }

  lemma MatchedIsPlain(front: string, s: string, rest: string)
    requires QUOTE !in front && QuotedStr(front + Quoted(s, rest)).0 == Some(s)
    ensures IsPlain(s)
  {
    var w := Escaped(s) + ([QUOTE] + rest);
    FirstOf(front, [QUOTE] + w, QUOTE);
    var stop := MatchedSlice(front + ([QUOTE] + w), s);
    SliceBehind(front, w, stop, s);
    OnlyPlainIsContents(s, rest);
  }
}
