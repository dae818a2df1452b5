/** Where the pattern for ON UPDATE CURRENT_TIMESTAMP is found in what follows a default. */
module OnUpdatePattern {
  import opened QtStrings
  import opened Schema
  import opened Escaping
  import opened Patterns
  import opened TableStructureParser

  /** A text in which the pattern does not begin: white space is followed by something else
      than white space and the letter o. */
  predicate IsInert(p: string)
  {
    forall k | 0 <= k < |p| ::
      !IsPatternSpace(p[k]) || (k + 1 < |p| && !IsPatternSpace(p[k + 1]) && ToLowerChar(p[k + 1]) != 'o')
  }

  lemma {:induction false} InertIsSkipped(p: string, rest: string)
    requires IsInert(p)
    ensures FindOnUpdate(p + rest) == FindOnUpdate(rest)
  {
    if p == [] {
      assert p + rest == rest;
    } else {
      var s := p + rest;
      assert s[1..] == p[1..] + rest;
      forall k | 0 <= k < |p| - 1
        ensures !IsPatternSpace(p[1..][k])
                || (k + 1 < |p| - 1 && !IsPatternSpace(p[1..][k + 1]) && ToLowerChar(p[1..][k + 1]) != 'o')
      {
        assert p[1..][k] == p[k + 1];
      }
      InertIsSkipped(p[1..], rest);
      if IsPatternSpace(p[0]) {
        assert s[1] == p[1];
        assert PatternSpaces(s) == 1 + PatternSpaces(s[1..]);
        assert PatternSpaces(s[1..]) == 0;
        assert !BeginsWith(s[1..], "ON");
        assert SpacedWord(s, ON_UPDATE[0]).None?;
      }
      assert OnUpdateAt(s).None?;
    }
  }

  predicate HasNoSpace(s: string)
  {
    forall k | 0 <= k < |s| :: !IsPatternSpace(s[k])
  }

  /** A word is skipped, and so is one with a space in front, unless it may be ON. */
  lemma WordIsSkipped(w: string, rest: string)
    requires HasNoSpace(w)
    ensures FindOnUpdate(w + rest) == FindOnUpdate(rest)
  {
    InertIsSkipped(w, rest);
  }

  lemma SpacedWordIsSkipped(w: string, rest: string)
    requires w != [] && HasNoSpace(w) && ToLowerChar(w[0]) != 'o'
    ensures FindOnUpdate(" " + (w + rest)) == FindOnUpdate(rest)
  {
    var p := " " + w;
    assert p[0] == ' ' && forall k | 1 <= k < |p| :: p[k] == w[k - 1];
    assert p + rest == " " + (w + rest);
    InertIsSkipped(p, rest);
  }

  // ---- a quote ends what can match ----

  lemma {:induction false} SpacesBeforeQuote(u: string, v: string)
    ensures PatternSpaces(u + ([QUOTE] + v)) == PatternSpaces(u)
  {
    if u == [] {
      assert u + ([QUOTE] + v) == [QUOTE] + v;
    } else {
      assert (u + ([QUOTE] + v))[1..] == u[1..] + ([QUOTE] + v);
      SpacesBeforeQuote(u[1..], v);
    }
  }

  lemma BeginsBeforeQuote(u: string, v: string, word: string)
    requires QUOTE !in word
    ensures BeginsWith(u + ([QUOTE] + v), word) <==> BeginsWith(u, word)
  {
    assert (u + ([QUOTE] + v))[|u|] == QUOTE;
    if |u| < |word| {
      assert word[|u|] in word;
    }
  }

  lemma WordBeforeQuote(u: string, v: string, word: string)
    requires QUOTE !in word
    ensures SpacedWord(u + ([QUOTE] + v), word) == SpacedWord(u, word)
  {
    SpacesBeforeQuote(u, v);
    var n := PatternSpaces(u);
    assert (u + ([QUOTE] + v))[n..] == u[n..] + ([QUOTE] + v);
    BeginsBeforeQuote(u[n..], v, word);
  }

  lemma {:induction false} WordsBeforeQuote(u: string, v: string, words: seq<string>, i: nat)
    requires i <= |words| && forall w | w in words :: QUOTE !in w
    ensures SpacedWords(u + ([QUOTE] + v), words, i) == SpacedWords(u, words, i)
    decreases |words| - i
  {
    if i < |words| {
      WordBeforeQuote(u, v, words[i]);
      var a := SpacedWord(u, words[i]);
      if a.Some? {
        assert (u + ([QUOTE] + v))[a.value..] == u[a.value..] + ([QUOTE] + v);
        WordsBeforeQuote(u[a.value..], v, words, i + 1);
      }
    }
  }

  lemma {:induction false} DigitsBeforeQuote(u: string, v: string)
    ensures Digits(u + ([QUOTE] + v)) == Digits(u)
  {
    if u == [] {
      NothingBefore([QUOTE] + v);
    } else {
      assert (u + ([QUOTE] + v))[1..] == u[1..] + ([QUOTE] + v);
      DigitsBeforeQuote(u[1..], v);
    }
  }

  lemma LengthBeforeQuote(u: string, v: string)
    ensures OptionalLength(u + ([QUOTE] + v)) == OptionalLength(u)
  {
    if u == [] {
      NothingBefore([QUOTE] + v);
    } else {
      assert (u + ([QUOTE] + v))[1..] == u[1..] + ([QUOTE] + v);
      DigitsBeforeQuote(u[1..], v);
    }
  }

  lemma LengthAtBeforeQuote(u: string, v: string, n: nat)
    requires n <= |u|
    ensures OptionalLength((u + ([QUOTE] + v))[n..]) == OptionalLength(u[n..])
  {
    assert (u + ([QUOTE] + v))[n..] == u[n..] + ([QUOTE] + v);
    LengthBeforeQuote(u[n..], v);
  }

  lemma OnUpdateBeforeQuote(u: string, v: string)
    ensures SpacedWords(u + ([QUOTE] + v), ON_UPDATE, 0) == SpacedWords(u, ON_UPDATE, 0)
  {
    assert forall w | w in ON_UPDATE :: QUOTE !in w;
    WordsBeforeQuote(u, v, ON_UPDATE, 0);
  }

  lemma MatchBeforeQuote(u: string, v: string)
    ensures OnUpdateAt(u + ([QUOTE] + v)) == OnUpdateAt(u)
  {
    OnUpdateBeforeQuote(u, v);
    var n := SpacedWords(u, ON_UPDATE, 0);
    if n.Some? {
      LengthAtBeforeQuote(u, v, n.value);
    }
    MatchIs(u, n);
    MatchIs(u + ([QUOTE] + v), n);
  }

  lemma MatchIs(s: string, n: Option<nat>)
    requires SpacedWords(s, ON_UPDATE, 0) == n
    ensures OnUpdateAt(s) == if n.None? then None else Some(n.value + OptionalLength(s[n.value..]))
  {
  }

  /** In a quoted text the first match is that of the text, or else of what follows. */
  lemma {:induction false} FoundBeforeQuote(u: string, v: string)
    ensures FindOnUpdate(u + ([QUOTE] + v)) == if FindOnUpdate(u).Some? then FindOnUpdate(u) else FindOnUpdate(v)
  {
    MatchBeforeQuote(u, v);
    if u == [] {
      assert u + ([QUOTE] + v) == [QUOTE] + v;
      InertIsSkipped([QUOTE], v);
    } else {
      assert (u + ([QUOTE] + v))[1..] == u[1..] + ([QUOTE] + v);
      FoundBeforeQuote(u[1..], v);
    }
  }

  // The least length of a match from word i on.
  function LeastLength(i: nat): nat
  {
    if i == 0 then 28 else if i == 1 then 25 else if i == 2 then 18 else 0
  }

  lemma {:induction false} WordsAreLong(s: string, i: nat)
    requires i <= 3
    ensures SpacedWords(s, ON_UPDATE, i).Some? ==> SpacedWords(s, ON_UPDATE, i).value >= LeastLength(i)
    decreases 3 - i
  {
    if i < 3 && SpacedWord(s, ON_UPDATE[i]).Some? {
      var a := SpacedWord(s, ON_UPDATE[i]).value;
      assert a >= 1 + |ON_UPDATE[i]|;
      WordsAreLong(s[a..], i + 1);
    }
  }

  /** A match holds the three words, with white space in front of each. */
  lemma {:induction false} MatchIsLong(s: string)
    ensures FindOnUpdate(s).Some? ==> FindOnUpdate(s).value >= 28
  {
    WordsAreLong(s, 0);
    if OnUpdateAt(s).None? && s != [] {
      MatchIsLong(s[1..]);
    }
  }

  // ---- the printed forms ----

  lemma {:induction false} DigitsThen(s: string, rest: string)
    requires (forall c | c in s :: IsDigit(c)) && (rest == [] || !IsDigit(rest[0]))
    ensures Digits(s + rest) == |s|
  {
    if s == [] {
      assert s + rest == rest;
    } else {
      assert (s + rest)[1..] == s[1..] + rest;
      DigitsThen(s[1..], rest);
    }
  }

  /** The length behind CURRENT_TIMESTAMP is taken as part of it. */
  lemma LengthIsTaken(s: string, rest: string)
    requires (forall c | c in s :: IsDigit(c)) && (rest == [] || rest[0] != '(')
    ensures OptionalLength((if s == [] then [] else "(" + (s + ")")) + rest) == if s == [] then 0 else |s| + 2
  {
    if s == [] {
      var none: string := [];
      assert none + rest == rest;
    } else {
      var t := "(" + (s + ")") + rest;
      assert t[1..] == s + (")" + rest);
      DigitsThen(s, ")" + rest);
      assert t[|s| + 1] == ')';
    }
  }

  lemma {:induction false} DigitsAre(s: string)
    ensures forall k | 0 <= k < Digits(s) :: IsDigit(s[k])
  {
    if s != [] && IsDigit(s[0]) {
      DigitsAre(s[1..]);
    }
  }

  /** What is taken as a length is digits in parentheses, at least one. */
  lemma TakenIsLength(s: string)
    ensures var n := OptionalLength(s);
            n > 0 ==> n > 2 && s[0] == '(' && s[n - 1] == ')' && forall k | 1 <= k < n - 1 :: IsDigit(s[k])
  {
    if OptionalLength(s) > 0 {
      DigitsAre(s[1..]);
      forall k | 1 <= k < OptionalLength(s) - 1
        ensures IsDigit(s[k])
      {
        assert s[k] == s[1..][k - 1];
      }
    }
  }

  lemma WordTaken(word: string, rest: string)
    requires word != [] && !IsPatternSpace(word[0])
    ensures SpacedWord(" " + (word + rest), word) == Some(1 + |word|)
    ensures (" " + (word + rest))[1 + |word|..] == rest
  {
    var s := " " + (word + rest);
    assert s[1..] == word + rest;
    assert PatternSpaces(s) == 1 + PatternSpaces(word + rest);
    assert PatternSpaces(word + rest) == 0;
  }

  /** A printed ON UPDATE clause is found at once, and taken with its length. */
  lemma ClauseIsFound(length: string, rest: string)
    requires (forall c | c in length :: IsDigit(c)) && (rest == [] || rest[0] != '(')
    ensures var s := " " + ("ON" + (" "
            + ("UPDATE" + (" " + (CURRENT_TIMESTAMP + ((if length == [] then [] else "(" + (length + ")")) + rest))))));
            OnUpdateCurTs(s) == (true, rest)
  {
    var l := if length == [] then [] else "(" + (length + ")");
    ClauseWordsTaken(l + rest);
    LengthIsTaken(length, rest);
    assert (l + rest)[|l|..] == rest;
    MatchIsCut(" " + ("ON" + (" " + ("UPDATE" + (" " + (CURRENT_TIMESTAMP + (l + rest)))))), l + rest, |l|);
  }

  lemma ClauseWordsTaken(end: string)
    ensures var s := " " + ("ON" + (" " + ("UPDATE" + (" " + (CURRENT_TIMESTAMP + end)))));
            SpacedWords(s, ON_UPDATE, 0) == Some(28) && |s| >= 28 && s[28..] == end
  {
    var c := " " + (CURRENT_TIMESTAMP + end);
    var b := " " + ("UPDATE" + c);
    var s := " " + ("ON" + b);
    WordTaken(CURRENT_TIMESTAMP, end);
    WordTaken("UPDATE", c);
    WordTaken("ON", b);
    WordsTaken(c, ON_UPDATE, 2, 18, end, 0);
    WordsTaken(b, ON_UPDATE, 1, 7, c, 18);
    WordsTaken(s, ON_UPDATE, 0, 3, b, 25);
    DropAgain(s, 3, 25);
    DropAgain(b, 7, 18);
  }

  lemma FoundAtOnce(s: string)
    requires OnUpdateAt(s).Some?
    ensures FindOnUpdate(s) == OnUpdateAt(s)
  {
  }

  lemma FoundIsCut(s: string, n: nat)
    requires FindOnUpdate(s) == Some(n) && n <= |s|
    ensures OnUpdateCurTs(s) == (true, s[n..])
  {
  }

  lemma MatchHasLength(s: string, m: nat, n: nat)
    requires SpacedWords(s, ON_UPDATE, 0) == Some(m) && OptionalLength(s[m..]) == n
    ensures OnUpdateAt(s) == Some(m + n)
  {
    MatchIs(s, Some(m));
  }

  lemma LengthIsCut(s: string, m: nat, n: nat)
    requires OnUpdateAt(s) == Some(m + n) && m + n <= |s|
    ensures OnUpdateCurTs(s) == (true, s[m..][n..])
  {
    FoundAtOnce(s);
    FoundIsCut(s, m + n);
    DropAgain(s, m, n);
  }

  lemma MatchIsCut(s: string, end: string, n: nat)
    requires SpacedWords(s, ON_UPDATE, 0) == Some(28) && |s| >= 28 && s[28..] == end && OptionalLength(end) == n
    ensures OnUpdateCurTs(s) == (true, end[n..])
  {
    MatchHasLength(s, 28, n);
    LengthIsCut(s, 28, n);
  }

  lemma DropAgain(s: string, m: nat, n: nat)
    requires m + n <= |s|
    ensures s[m..][n..] == s[m + n..]
  {
  }

  /** When a word is taken, those behind it are looked for in the rest. */
  lemma WordsTaken(s: string, words: seq<string>, i: nat, m: nat, rest: string, n: nat)
    requires i < |words| && SpacedWord(s, words[i]) == Some(m) && m <= |s| && s[m..] == rest
    requires SpacedWords(rest, words, i + 1) == Some(n)
    ensures SpacedWords(s, words, i) == Some(m + n)
  {
  }
}
