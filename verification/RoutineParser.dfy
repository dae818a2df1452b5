/** RoutineStructureParser: the scan for the parameter list of a routine and for its
    COMMENT, against the text RoutineEditor prints.
 */
module RoutineParser {
  import opened QtStrings
  import opened Escaping
  import opened Patterns

  // ---- literals ----

  /** The length of what the pattern for a literal's beginning matches: white space, the
      prefix with white space behind it, and the quote. */
  function LiteralStart(sql: string, prefix: string): (n: Option<nat>)
    ensures n.Some? ==> n.value <= |sql|
  {
    var a := PatternSpaces(sql);
    if prefix == [] then
      if a < |sql| && sql[a] == QUOTE then Some(a + 1) else None
    else if !StartsWith(sql[a..], prefix) then None
    else
      var b := a + |prefix|;
      var c := b + PatternSpaces(sql[b..]);
      if c > b && c < |sql| && sql[c] == QUOTE then Some(c + 1) else None
  }

  /** How far the scan for the end of a literal goes. */
  function LiteralLength(s: string, inLiteral: bool): (n: nat)
    ensures n <= |s|
  {
    if s == [] then 0
    else if s[0] == QUOTE then 1 + LiteralLength(s[1..], !inLiteral)
    else if !inLiteral then 0
    else 1 + LiteralLength(s[1..], inLiteral)
  }

  /** QString::mid with a count that may be negative. */
  function Mid(s: string, position: nat, n: int): string
    requires position <= |s|
  {
    if n < 0 || position + n > |s| then s[position..] else s[position..position + n]
  }

  function Literal(sql: string, prefix: string): (string, string)
  {
    var start := LiteralStart(sql, prefix);
    if start.None? then ([], sql)
    else
      var n := LiteralLength(sql[start.value..], true);
      (MySQLUnescape(Mid(sql, start.value, n - 1)), sql[start.value + n..])
  }

  method ExtractLiteral(sql: string, prefix: string) returns (result: string, rest: string)
    ensures (result, rest) == Literal(sql, prefix)
  {
    result, rest := [], sql;
    var matched := LiteralStart(sql, prefix);
    if matched.Some? {
      var literalStart := matched.value;
      var inLiteral := true;
      var i := literalStart;
      while i < |sql|
        invariant literalStart <= i <= |sql|
        invariant LiteralLength(sql[literalStart..], true) == i - literalStart + LiteralLength(sql[i..], inLiteral)
      {
        assert sql[i..][1..] == sql[i + 1..];
        if sql[i] == QUOTE {
          inLiteral := !inLiteral;
        } else if !inLiteral {
          break;
        }
        i := i + 1;
      }
      result := Mid(sql, literalStart, i - literalStart - 1);
      result := MySQLUnescape(result);
      rest := sql[i..];
    }
  }

  lemma {:induction false} QuotedLength(s: string, rest: string)
    requires rest == [] || rest[0] != QUOTE
    ensures LiteralLength(Prefixed(s, QUOTE, QUOTE) + ([QUOTE] + rest), true) == |Prefixed(s, QUOTE, QUOTE)| + 1
  {
    if s == [] {
      assert Prefixed(s, QUOTE, QUOTE) + ([QUOTE] + rest) == [QUOTE] + rest;
      assert ([QUOTE] + rest)[1..] == rest;
    } else {
      var text := Prefixed(s[1..], QUOTE, QUOTE) + ([QUOTE] + rest);
      QuotedLength(s[1..], rest);
      if s[0] == QUOTE {
        LiteralQuotes(text);
        assert Prefixed(s, QUOTE, QUOTE) + ([QUOTE] + rest) == [QUOTE, QUOTE] + text;
      } else {
        assert ([s[0]] + text)[1..] == text;
        assert Prefixed(s, QUOTE, QUOTE) + ([QUOTE] + rest) == [s[0]] + text;
      }
    }
  }

  lemma LiteralQuotes(text: string)
    ensures LiteralLength([QUOTE, QUOTE] + text, true) == 2 + LiteralLength(text, true)
  {
    assert ([QUOTE, QUOTE] + text)[1..] == [QUOTE] + text;
    assert ([QUOTE] + text)[1..] == text;
  }

  const COMMENT := "COMMENT"

  predicate AreSpaces(s: string)
  {
    forall c | c in s :: IsPatternSpace(c)
  }

  lemma StartIsFound(before: string, prefix: string, between: string, rest: string)
    requires AreSpaces(before) && AreSpaces(between)
    requires if prefix == [] then between == [] else between != [] && !IsPatternSpace(prefix[0])
    ensures LiteralStart(before + (prefix + (between + ([QUOTE] + rest))), prefix)
            == Some(|before| + |prefix| + |between| + 1)
  {
    var tail := between + ([QUOTE] + rest);
    var sql := before + (prefix + tail);
    assert prefix == [] ==> prefix + tail == [QUOTE] + rest;
    SpacesThen(before, prefix + tail);
    SpacesThen(between, [QUOTE] + rest);
    assert sql[|before|..] == prefix + tail;
    assert StartsWith(prefix + tail, prefix);
    assert sql[|before| + |prefix|..] == tail;
    assert tail[|between|] == QUOTE;
  }

  lemma {:induction false} PatternSpacesAre(s: string)
    ensures AreSpaces(s[..PatternSpaces(s)])
    ensures PatternSpaces(s) < |s| ==> !IsPatternSpace(s[PatternSpaces(s)])
  {
    if s != [] && IsPatternSpace(s[0]) {
      PatternSpacesAre(s[1..]);
      assert s[..PatternSpaces(s)] == [s[0]] + s[1..][..PatternSpaces(s[1..])];
    }
  }

  /** White space, the prefix with white space behind it, and a quote; without a prefix, white
      space and a quote. */
  predicate IsStart(s: string, before: string, prefix: string, between: string)
  {
    && AreSpaces(before) && AreSpaces(between) && (between == [] <==> prefix == [])
    && s == before + (prefix + (between + [QUOTE]))
  }

  /** Exactly such a beginning is taken, and all of it. */
  lemma LiteralStartIff(sql: string, prefix: string, n: nat)
    requires prefix != [] ==> !IsPatternSpace(prefix[0])
    ensures LiteralStart(sql, prefix) == Some(n)
       <==> n <= |sql| && exists before: string, between: string :: IsStart(sql[..n], before, prefix, between)
  {
    if LiteralStart(sql, prefix) == Some(n) {
      StartIsRead(sql, prefix, n);
    }
    if n <= |sql| {
      if before: string, between: string :| IsStart(sql[..n], before, prefix, between) {
        StartIsTaken(sql, before, prefix, between, n);
      }
    }
  }

  lemma StartIsTaken(sql: string, before: string, prefix: string, between: string, n: nat)
    requires prefix != [] ==> !IsPatternSpace(prefix[0])
    requires n <= |sql| && IsStart(sql[..n], before, prefix, between)
    ensures LiteralStart(sql, prefix) == Some(n)
  {
    var rest := sql[n..];
    StartIsFound(before, prefix, between, rest);
    assert sql == sql[..n] + rest;
    Regroup(before, prefix + (between + [QUOTE]), rest);
    Regroup(prefix, between + [QUOTE], rest);
    Regroup(between, [QUOTE], rest);
  }

  lemma StartIsRead(sql: string, prefix: string, n: nat)
    requires LiteralStart(sql, prefix) == Some(n)
    ensures n <= |sql| && exists before: string, between: string :: IsStart(sql[..n], before, prefix, between)
  {
    var a := PatternSpaces(sql);
    PatternSpacesAre(sql);
    var before := sql[..a];
    if prefix == [] {
      assert IsStart(sql[..n], before, prefix, []);
    } else {
      var b := a + |prefix|;
      var between := sql[b..][..PatternSpaces(sql[b..])];
      PatternSpacesAre(sql[b..]);
      assert sql[a..b] == prefix;
      assert IsStart(sql[..n], before, prefix, between);
    }
  }

  /** Extracting the printed comment always leaves what follows it, and gives the comment
      back exactly when it holds no backslash directly before n, r, 0 or t. */
  lemma CommentRoundTrip(comment: string, before: string, between: string, rest: string)
    requires between != [] && AreSpaces(before) && AreSpaces(between)
    requires rest == [] || rest[0] != QUOTE
    ensures var r := Literal(before + (COMMENT + (between + (MySQLEscape(comment, false, true) + rest))), COMMENT);
            r.1 == rest && (r.0 == comment <==> !HasControl(comment))
  {
    var e := MySQLEscape(comment, false, false);
    MySQLEscaped(comment);
    PrefixesCommute(comment);
    LiteralIn(before, between, Prefixed(comment, BACKSLASH, BACKSLASH), rest);
    QuotedThen(e, rest);
    MySQLRoundTrip(comment);
  }

  lemma QuotedThen(e: string, rest: string)
    ensures [QUOTE] + e + [QUOTE] + rest == [QUOTE] + (e + ([QUOTE] + rest))
  {
  }

  lemma LiteralIn(before: string, between: string, y: string, rest: string)
    requires between != [] && AreSpaces(before) && AreSpaces(between)
    requires rest == [] || rest[0] != QUOTE
    ensures Literal(before + (COMMENT + (between + ([QUOTE] + (Prefixed(y, QUOTE, QUOTE) + ([QUOTE] + rest))))),
            COMMENT)
         == (MySQLUnescape(Prefixed(y, QUOTE, QUOTE)), rest)
  {
    var e := Prefixed(y, QUOTE, QUOTE);
    StartIsFound(before, COMMENT, between, e + ([QUOTE] + rest));
    QuotedLength(y, rest);
    LiteralPart(before, between, e, rest);
    LiteralAt(before + (COMMENT + (between + ([QUOTE] + (e + ([QUOTE] + rest))))), |before| + 7 + |between| + 1, e,
              rest);
  }

  lemma LiteralAt(sql: string, start: nat, e: string, rest: string)
    requires LiteralStart(sql, COMMENT) == Some(start)
    requires sql[start..] == e + ([QUOTE] + rest) && LiteralLength(e + ([QUOTE] + rest), true) == |e| + 1
    requires Mid(sql, start, |e|) == e && sql[start + |e| + 1..] == rest
    ensures Literal(sql, COMMENT) == (MySQLUnescape(e), rest)
  {
    LiteralIs(sql, COMMENT, start, sql[start..], |e| + 1);
  }

  lemma LiteralIs(sql: string, prefix: string, start: nat, text: string, n: nat)
    requires LiteralStart(sql, prefix) == Some(start) && sql[start..] == text && LiteralLength(text, true) == n
    requires start + n <= |sql|
    ensures Literal(sql, prefix) == (MySQLUnescape(Mid(sql, start, n - 1)), sql[start + n..])
  {
  }

  lemma LiteralPart(before: string, between: string, e: string, rest: string)
    ensures var sql := before + (COMMENT + (between + ([QUOTE] + (e + ([QUOTE] + rest)))));
            var start := |before| + 7 + |between| + 1;
            && sql[start..] == e + ([QUOTE] + rest)
            && Mid(sql, start, |e|) == e && sql[start + |e| + 1..] == rest
  {
    var sql := before + (COMMENT + (between + ([QUOTE] + (e + ([QUOTE] + rest)))));
    var front := before + COMMENT + between + [QUOTE];
    assert sql == front + (e + ([QUOTE] + rest));
    assert sql == front + e + [QUOTE] + rest;
  }
}
