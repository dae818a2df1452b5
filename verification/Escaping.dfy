/** escapeString and unescapeString of the three connections, quoteIdentifier and
    dequoteIdentifier, and when one undoes the other.
 */
module Escaping {
  import opened QtStrings

  const QUOTE := '\''
  const BACKSLASH := '\\'

  predicate StartsWith(s: string, p: string)
  {
    |p| <= |s| && forall k | 0 <= k < |p| :: s[k] == p[k]
  }

  /** QString::replace: every occurrence from the left, without looking at inserted text. */
  function Replace(s: string, p: string, w: string): string
    requires p != []
    decreases |s|
  {
    if s == [] then []
    else if StartsWith(s, p) then w + Replace(s[|p|..], p, w)
    else [s[0]] + Replace(s[1..], p, w)
  }

  function MySQLEscape(s: string, processJokerChars: bool, doQuote: bool): string
  {
    var quotes := Replace(s, "'", "''");
    var slashes := Replace(quotes, "\\", "\\\\");
    var jokers := if processJokerChars then Replace(Replace(slashes, "%", "\\%"), "_", "\\_") else slashes;
    if doQuote then [QUOTE] + jokers + [QUOTE] else jokers
  }

  /** The control characters that both MySQL and PostgreSQL unescape first. */
  function UnescapeControls(s: string): string
  {
    var lf := Replace(s, "\\n", "\n");
    var cr := Replace(lf, "\\r", "\r");
    var nul := Replace(cr, "\\0", "\0");
    Replace(nul, "\\t", "\t")
  }

  function MySQLUnescape(s: string): string
  {
    var quotes := Replace(UnescapeControls(s), "''", "'");
    Replace(quotes, "\\\\", "\\")
  }

  function PGEscape(s: string, processJokerChars: bool, doQuote: bool): string
  {
    var slashes := Replace(s, "\\", "\\\\");
    var quotes := Replace(slashes, "'", "\\'");
    var jokers := if processJokerChars then Replace(Replace(quotes, "%", "\\%"), "_", "\\_") else quotes;
    if doQuote then "E'" + jokers + [QUOTE] else jokers
  }

  function PGUnescape(s: string): string
  {
    var quotes := Replace(UnescapeControls(s), "\\'", "'");
    Replace(quotes, "\\\\", "\\")
  }

  function SQLiteEscape(s: string, doQuote: bool): string
  {
    var quotes := Replace(s, "'", "''");
    if doQuote then [QUOTE] + quotes + [QUOTE] else quotes
  }

  function SQLiteUnescape(s: string): string
  {
    Replace(s, "''", "'")
  }

  // ---- replacing a character by two, and back ----

  /** Every c with a p before it. */
  function Prefixed(s: string, p: char, c: char): string
  {
    if s == [] then [] else (if s[0] == c then [p, c] else [s[0]]) + Prefixed(s[1..], p, c)
  }

  lemma {:induction false} ReplacePrefixes(s: string, p: char, c: char)
    ensures Replace(s, [c], [p, c]) == Prefixed(s, p, c)
  {
    if s != [] {
      ReplacePrefixes(s[1..], p, c);
    }
  }

  /** What a pair at the front does in a replacement. */
  lemma ReplaceFront(x: char, y: char, rest: string, w: char)
    ensures Replace([x, y] + rest, [x, y], [w]) == [w] + Replace(rest, [x, y], [w])
  {
    assert ([x, y] + rest)[2..] == rest;
  }

  lemma ReplaceSkips(a: char, rest: string, x: char, y: char, w: char)
    requires a != x || rest == [] || rest[0] != y
    ensures Replace([a] + rest, [x, y], [w]) == [a] + Replace(rest, [x, y], [w])
  {
    assert ([a] + rest)[1..] == rest;
    if rest != [] {
      assert ([a] + rest)[1] == rest[0];
    }
  }

  lemma PrefixedHead(s: string, p: char, c: char)
    ensures Prefixed(s, p, c) == [] <==> s == []
    ensures s != [] ==> Prefixed(s, p, c)[0] == if s[0] == c then p else s[0]
  {
  }

  /** Undoing a prefix: for p == c, or p itself never directly before c unprefixed. */
  lemma {:induction false} PrefixUndone(s: string, p: char, c: char)
    ensures Replace(Prefixed(s, p, c), [p, c], [c]) == s
  {
    if s == [] {
    } else {
      PrefixUndone(s[1..], p, c);
      var rest := Prefixed(s[1..], p, c);
      if s[0] == c {
        ReplaceFront(p, c, rest, c);
        assert Prefixed(s, p, c) == [p, c] + rest;
      } else {
        PrefixedHead(s[1..], p, c);
        ReplaceSkips(s[0], rest, p, c, c);
        assert Prefixed(s, p, c) == [s[0]] + rest;
      }
      assert s == [s[0]] + s[1..];
    }
  }

  /** SQLite: for every text. */
  lemma SQLiteRoundTrip(s: string)
    ensures SQLiteUnescape(SQLiteEscape(s, false)) == s
  {
    ReplacePrefixes(s, QUOTE, QUOTE);
    PrefixUndone(s, QUOTE, QUOTE);
  }

  // ---- pairs that occur and pairs that do not ----

  predicate HasPair(s: string, x: char, y: char)
  {
    exists k | 0 <= k < |s| - 1 :: s[k] == x && s[k + 1] == y
  }

  lemma HasPairHead(a: char, rest: string, x: char, y: char)
    ensures HasPair([a] + rest, x, y) <==> (a == x && rest != [] && rest[0] == y) || HasPair(rest, x, y)
  {
    var s := [a] + rest;
    if k :| 0 <= k < |s| - 1 && s[k] == x && s[k + 1] == y {
      if k > 0 {
        assert rest[k - 1] == x && rest[k - 1 + 1] == y;
      }
    }
    if k :| 0 <= k < |rest| - 1 && rest[k] == x && rest[k + 1] == y {
      assert s[k + 1] == x && s[k + 1 + 1] == y;
    }
    if a == x && rest != [] && rest[0] == y {
      assert s[0] == x && s[0 + 1] == y;
    }
  }

  lemma {:induction false} NoPairNoChange(s: string, x: char, y: char, w: char)
    requires !HasPair(s, x, y)
    ensures Replace(s, [x, y], [w]) == s
  {
    if s != [] {
      assert s == [s[0]] + s[1..];
      HasPairHead(s[0], s[1..], x, y);
      NoPairNoChange(s[1..], x, y, w);
      ReplaceSkips(s[0], s[1..], x, y, w);
    }
  }

  /** Prefixing neither makes nor breaks a pair of a backslash and another letter. */
  lemma {:induction false} PrefixedPairs(s: string, p: char, c: char, y: char)
    requires (p == BACKSLASH && (c == BACKSLASH || c == QUOTE)) || (p == QUOTE && c == QUOTE)
    requires y != BACKSLASH && y != QUOTE
    ensures HasPair(Prefixed(s, p, c), BACKSLASH, y) <==> HasPair(s, BACKSLASH, y)
  {
    if s != [] {
      var rest := Prefixed(s[1..], p, c);
      PrefixedPairs(s[1..], p, c, y);
      PrefixedHead(s[1..], p, c);
      assert s == [s[0]] + s[1..];
      HasPairHead(s[0], s[1..], BACKSLASH, y);
      if s[0] == c {
        assert Prefixed(s, p, c) == [p] + ([c] + rest);
        HasPairHead(c, rest, BACKSLASH, y);
        HasPairHead(p, [c] + rest, BACKSLASH, y);
      } else {
        assert Prefixed(s, p, c) == [s[0]] + rest;
        HasPairHead(s[0], rest, BACKSLASH, y);
      }
    }
  }

  /** A backslash directly before one of the letters that unescaping takes for a control
      character. */
  predicate HasControl(s: string)
  {
    HasPair(s, BACKSLASH, 'n') || HasPair(s, BACKSLASH, 'r') || HasPair(s, BACKSLASH, '0') || HasPair(s, BACKSLASH, 't')
  }

  lemma NoControlNoChange(s: string)
    requires !HasControl(s)
    ensures UnescapeControls(s) == s
  {
    NoPairNoChange(s, BACKSLASH, 'n', '\n');
    NoPairNoChange(s, BACKSLASH, 'r', '\r');
    NoPairNoChange(s, BACKSLASH, '0', '\0');
    NoPairNoChange(s, BACKSLASH, 't', '\t');
  }

  lemma PrefixedControls(s: string, p: char, c: char)
    requires (p == BACKSLASH && (c == BACKSLASH || c == QUOTE)) || (p == QUOTE && c == QUOTE)
    ensures HasControl(Prefixed(s, p, c)) <==> HasControl(s)
  {
    PrefixedPairs(s, p, c, 'n');
    PrefixedPairs(s, p, c, 'r');
    PrefixedPairs(s, p, c, '0');
    PrefixedPairs(s, p, c, 't');
  }

  lemma {:induction false} PrefixesCommute(s: string)
    ensures Prefixed(Prefixed(s, QUOTE, QUOTE), BACKSLASH, BACKSLASH)
            == Prefixed(Prefixed(s, BACKSLASH, BACKSLASH), QUOTE, QUOTE)
  {
    if s != [] {
      PrefixesCommute(s[1..]);
      PrefixedCons(s[0], s[1..], QUOTE);
      PrefixedCons(s[0], s[1..], BACKSLASH);
      assert s == [s[0]] + s[1..];
      var a, b := Prefixed(s[1..], QUOTE, QUOTE), Prefixed(s[1..], BACKSLASH, BACKSLASH);
      PrefixedCons(s[0], a, BACKSLASH);
      PrefixedCons(s[0], b, QUOTE);
      PrefixedCons(s[0], [s[0]] + a, BACKSLASH);
      PrefixedCons(s[0], [s[0]] + b, QUOTE);
    }
  }

  lemma PrefixedCons(a: char, rest: string, c: char)
    ensures Prefixed([a] + rest, c, c)
         == (if a == c then [a] + ([a] + Prefixed(rest, c, c)) else [a] + Prefixed(rest, c, c))
  {
    assert ([a] + rest)[1..] == rest;
  }

  // ---- counting letters: what is lost when a control sequence is undone ----

  function CountOf(s: string, c: char): nat
  {
    if s == [] then 0 else (if s[0] == c then 1 else 0) + CountOf(s[1..], c)
  }

  lemma CountOfCons(a: char, rest: string, c: char)
    ensures CountOf([a] + rest, c) == (if a == c then 1 else 0) + CountOf(rest, c)
  {
    assert ([a] + rest)[1..] == rest;
  }

  lemma {:induction false} PrefixedCount(s: string, p: char, c: char, z: char)
    requires z != p && z != c
    ensures CountOf(Prefixed(s, p, c), z) == CountOf(s, z)
  {
    if s != [] {
      PrefixedCount(s[1..], p, c, z);
      var rest := Prefixed(s[1..], p, c);
      assert s == [s[0]] + s[1..];
      CountOfCons(s[0], s[1..], z);
      CountOfCons(c, rest, z);
      CountOfCons(p, [c] + rest, z);
      CountOfCons(s[0], rest, z);
      assert Prefixed(s, p, c) == if s[0] == c then [p] + ([c] + rest) else [s[0]] + rest;
    }
  }

  /** Replacing pairs adds no letter but w, and takes one away where a pair ends in it. */
  lemma {:induction false} ReplaceCount(s: string, x: char, y: char, w: char, z: char)
    requires x != y && z != w
    ensures CountOf(Replace(s, [x, y], [w]), z) <= CountOf(s, z)
    ensures z == y && HasPair(s, x, y) ==> CountOf(Replace(s, [x, y], [w]), z) < CountOf(s, z)
    decreases |s|
  {
    if s == [] {
    } else if StartsWith(s, [x, y]) {
      var rest := s[2..];
      ReplaceCount(rest, x, y, w, z);
      assert s == [x] + ([y] + rest);
      CountOfCons(x, [y] + rest, z);
      CountOfCons(y, rest, z);
      CountOfCons(w, Replace(rest, [x, y], [w]), z);
    } else {
      ReplaceCount(s[1..], x, y, w, z);
      assert s == [s[0]] + s[1..];
      CountOfCons(s[0], s[1..], z);
      CountOfCons(s[0], Replace(s[1..], [x, y], [w]), z);
      HasPairHead(s[0], s[1..], x, y);
    }
  }

  /** Replacing one pair keeps pairs that end in another letter. */
  lemma {:induction false} ReplaceKeepsPairs(s: string, x: char, y: char, w: char, z: char)
    requires x != y && z != y && z != x && HasPair(s, x, z)
    ensures HasPair(Replace(s, [x, y], [w]), x, z)
    decreases |s|
  {
    assert s == [s[0]] + s[1..];
    HasPairHead(s[0], s[1..], x, z);
    if StartsWith(s, [x, y]) {
      var rest := s[2..];
      assert s[1..] == [y] + rest;
      HasPairHead(y, rest, x, z);
      ReplaceKeepsPairs(rest, x, y, w, z);
      HasPairHead(w, Replace(rest, [x, y], [w]), x, z);
    } else {
      HasPairHead(s[0], Replace(s[1..], [x, y], [w]), x, z);
      if HasPair(s[1..], x, z) {
        ReplaceKeepsPairs(s[1..], x, y, w, z);
      }
    }
  }

  /** Undoing control sequences loses one of the letters n, r, 0, t when there is one to undo. */
  lemma ControlsLoseLetter(s: string) returns (z: char)
    requires HasControl(s)
    ensures z in {'n', 'r', '0', 't'} && CountOf(UnescapeControls(s), z) < CountOf(s, z)
  {
    var lf := Replace(s, "\\n", "\n");
    var cr := Replace(lf, "\\r", "\r");
    var nul := Replace(cr, "\\0", "\0");
    z := if HasPair(s, BACKSLASH, 'n') then 'n'
         else if HasPair(lf, BACKSLASH, 'r') then 'r'
         else if HasPair(cr, BACKSLASH, '0') then '0' else 't';
    if !HasPair(s, BACKSLASH, 'n') {
      NoPairNoChange(s, BACKSLASH, 'n', '\n');
      if !HasPair(lf, BACKSLASH, 'r') {
        NoPairNoChange(lf, BACKSLASH, 'r', '\r');
        if !HasPair(cr, BACKSLASH, '0') {
          NoPairNoChange(cr, BACKSLASH, '0', '\0');
        }
      }
    }
    ReplaceCount(s, BACKSLASH, 'n', '\n', z);
    ReplaceCount(lf, BACKSLASH, 'r', '\r', z);
    ReplaceCount(cr, BACKSLASH, '0', '\0', z);
    ReplaceCount(nul, BACKSLASH, 't', '\t', z);
  }

  // ---- the round trips ----

  lemma MySQLEscaped(s: string)
    ensures MySQLEscape(s, false, false) == Prefixed(Prefixed(s, QUOTE, QUOTE), BACKSLASH, BACKSLASH)
  {
    ReplacePrefixes(s, QUOTE, QUOTE);
    ReplacePrefixes(Prefixed(s, QUOTE, QUOTE), BACKSLASH, BACKSLASH);
  }

  /** MySQL: exactly for the texts without a backslash directly before n, r, 0 or t. */
  lemma MySQLRoundTrip(s: string)
    ensures MySQLUnescape(MySQLEscape(s, false, false)) == s <==> !HasControl(s)
  {
    var quoted := Prefixed(s, QUOTE, QUOTE);
    var escaped := Prefixed(quoted, BACKSLASH, BACKSLASH);
    MySQLEscaped(s);
    PrefixedControls(s, QUOTE, QUOTE);
    PrefixedControls(quoted, BACKSLASH, BACKSLASH);
    if !HasControl(s) {
      NoControlNoChange(escaped);
      PrefixesCommute(s);
      PrefixUndone(Prefixed(s, BACKSLASH, BACKSLASH), QUOTE, QUOTE);
      PrefixUndone(s, BACKSLASH, BACKSLASH);
    } else {
      var z := ControlsLoseLetter(escaped);
      PrefixedCount(s, QUOTE, QUOTE, z);
      PrefixedCount(quoted, BACKSLASH, BACKSLASH, z);
      var u := UnescapeControls(escaped);
      QuotesCount(u, z);
      SlashesCount(Replace(u, "''", "'"), z);
    }
  }

  /** For example, a backslash and an n do not come back. */
  lemma ControlExample()
    ensures MySQLUnescape(MySQLEscape("\\n", false, false)) != "\\n"
  {
    var s := "\\n";
    assert s[0] == BACKSLASH && s[1] == 'n';
    assert HasPair(s, BACKSLASH, 'n');
    MySQLRoundTrip(s);
  }

  lemma {:induction false} SamePairCount(s: string, x: char, z: char)
    requires z != x
    ensures CountOf(Replace(s, [x, x], [x]), z) == CountOf(s, z)
    decreases |s|
  {
    if s == [] {
    } else if StartsWith(s, [x, x]) {
      var rest := s[2..];
      SamePairCount(rest, x, z);
      assert s == [x] + ([x] + rest);
      CountOfCons(x, [x] + rest, z);
      CountOfCons(x, rest, z);
      CountOfCons(x, Replace(rest, [x, x], [x]), z);
    } else {
      SamePairCount(s[1..], x, z);
      assert s == [s[0]] + s[1..];
      CountOfCons(s[0], s[1..], z);
      CountOfCons(s[0], Replace(s[1..], [x, x], [x]), z);
    }
  }

  lemma QuotesCount(s: string, z: char)
    requires z != QUOTE
    ensures CountOf(Replace(s, "''", "'"), z) == CountOf(s, z)
  {
    SamePairCount(s, QUOTE, z);
  }

  lemma SlashesCount(s: string, z: char)
    requires z != BACKSLASH
    ensures CountOf(Replace(s, "\\\\", "\\"), z) == CountOf(s, z)
  {
    SamePairCount(s, BACKSLASH, z);
  }

  lemma PGEscaped(s: string)
    ensures PGEscape(s, false, false) == Prefixed(Prefixed(s, BACKSLASH, BACKSLASH), BACKSLASH, QUOTE)
  {
    ReplacePrefixes(s, BACKSLASH, BACKSLASH);
    ReplacePrefixes(Prefixed(s, BACKSLASH, BACKSLASH), BACKSLASH, QUOTE);
  }

  /** PostgreSQL: exactly for the same texts. */
  lemma PGRoundTrip(s: string)
    ensures PGUnescape(PGEscape(s, false, false)) == s <==> !HasControl(s)
  {
    var slashed := Prefixed(s, BACKSLASH, BACKSLASH);
    var escaped := Prefixed(slashed, BACKSLASH, QUOTE);
    PGEscaped(s);
    PrefixedControls(s, BACKSLASH, BACKSLASH);
    PrefixedControls(slashed, BACKSLASH, QUOTE);
    if !HasControl(s) {
      NoControlNoChange(escaped);
      PrefixUndone(slashed, BACKSLASH, QUOTE);
      PrefixUndone(s, BACKSLASH, BACKSLASH);
    } else {
      var z := ControlsLoseLetter(escaped);
      PrefixedCount(s, BACKSLASH, BACKSLASH, z);
      PrefixedCount(slashed, BACKSLASH, QUOTE, z);
      var u := UnescapeControls(escaped);
      ReplaceCount(u, BACKSLASH, QUOTE, QUOTE, z);
      SlashesCount(Replace(u, "\\'", "'"), z);
    }
  }

  // ---- what the server makes of an escaped literal ----

  /** The server's reading of a string literal after its opening quote: its value and
      the text behind the closing quote (MySQL Reference Manual, String Literals). */
  function ReadLiteral(s: string, backslashEscapes: bool): Option<(string, string)>
    decreases |s|
  {
    if s == [] then None
    else if s[0] == QUOTE then
      if |s| > 1 && s[1] == QUOTE then ReadOn(QUOTE, ReadLiteral(s[2..], backslashEscapes))
      else Some(([], s[1..]))
    else if s[0] == BACKSLASH && backslashEscapes then
      if |s| == 1 then None else ReadOn(EscapedChar(s[1]), ReadLiteral(s[2..], backslashEscapes))
    else ReadOn(s[0], ReadLiteral(s[1..], backslashEscapes))
  }

  function ReadOn(c: char, r: Option<(string, string)>): Option<(string, string)>
  {
    if r.None? then None else Some(([c] + r.value.0, r.value.1))
  }

  /** The character after a backslash stands for itself but for these. */
  function EscapedChar(c: char): char
  {
    match c
    case 'n' => '\n'
    case 'r' => '\r'
    case '0' => '\0'
    case 't' => '\t'
    case 'b' => '\U{0008}'
    case 'Z' => '\U{001A}'
    case _ => c
  }

  lemma ReadPair(a: char, rest: string, backslashEscapes: bool)
    requires a == QUOTE || (a == BACKSLASH && backslashEscapes)
    ensures ReadLiteral([a, a] + rest, backslashEscapes) == ReadOn(a, ReadLiteral(rest, backslashEscapes))
  {
    assert ([a, a] + rest)[2..] == rest;
  }

  lemma ReadChar(a: char, rest: string, backslashEscapes: bool)
    requires a != QUOTE && !(a == BACKSLASH && backslashEscapes)
    ensures ReadLiteral([a] + rest, backslashEscapes) == ReadOn(a, ReadLiteral(rest, backslashEscapes))
  {
    assert ([a] + rest)[1..] == rest;
  }

  /** The server reads back every text that escapeString quoted, with no exception, and
      the literal ends where it should. */
  lemma {:induction false} MySQLServerReads(s: string, rest: string)
    requires rest == [] || rest[0] != QUOTE
    ensures ReadLiteral(Prefixed(Prefixed(s, QUOTE, QUOTE), BACKSLASH, BACKSLASH) + [QUOTE] + rest, true)
            == Some((s, rest))
  {
    if s == [] {
      assert Prefixed(Prefixed(s, QUOTE, QUOTE), BACKSLASH, BACKSLASH) + [QUOTE] + rest == [QUOTE] + rest;
    } else {
      var tail := Prefixed(Prefixed(s[1..], QUOTE, QUOTE), BACKSLASH, BACKSLASH);
      MySQLServerReads(s[1..], rest);
      EscapedHead(s);
      var text := tail + [QUOTE] + rest;
      var head := if s[0] == QUOTE || s[0] == BACKSLASH then [s[0], s[0]] else [s[0]];
      Regroup(head, tail, [QUOTE]);
      Regroup(head, tail + [QUOTE], rest);
      if s[0] == QUOTE || s[0] == BACKSLASH {
        ReadPair(s[0], text, true);
      } else {
        ReadChar(s[0], text, true);
      }
      assert s == [s[0]] + s[1..];
    }
  }

  lemma Doubling(x: char, t: string)
    ensures [x] + ([x] + t) == [x, x] + t
  {
  }

  lemma PrefixedUnfolds(s: string, p: char, c: char)
    requires s != []
    ensures Prefixed(s, p, c)
         == if s[0] == c then [p] + ([c] + Prefixed(s[1..], p, c)) else [s[0]] + Prefixed(s[1..], p, c)
  {
    Doubling(p, Prefixed(s[1..], p, c));
  }

  lemma EscapedHead(s: string)
    requires s != []
    ensures Prefixed(Prefixed(s, QUOTE, QUOTE), BACKSLASH, BACKSLASH)
         == (if s[0] == QUOTE || s[0] == BACKSLASH then [s[0], s[0]] else [s[0]])
            + Prefixed(Prefixed(s[1..], QUOTE, QUOTE), BACKSLASH, BACKSLASH)
  {
    var a := Prefixed(s[1..], QUOTE, QUOTE);
    PrefixedUnfolds(s, QUOTE, QUOTE);
    PrefixedCons(s[0], a, BACKSLASH);
    if s[0] == QUOTE {
      PrefixedCons(s[0], [s[0]] + a, BACKSLASH);
    }
    Doubling(s[0], Prefixed(a, BACKSLASH, BACKSLASH));
  }

  lemma MySQLLiteralIsRead(s: string, rest: string)
    requires rest == [] || rest[0] != QUOTE
    ensures var literal := MySQLEscape(s, false, true);
            literal[0] == QUOTE && ReadLiteral(literal[1..] + rest, true) == Some((s, rest))
  {
    MySQLEscaped(s);
    MySQLServerReads(s, rest);
    var escaped := MySQLEscape(s, false, false);
    assert ([QUOTE] + escaped + [QUOTE])[1..] + rest == escaped + [QUOTE] + rest;
  }

  /** A control sequence on its own is undone as the server reads it. */
  lemma ControlsAreTheServers(c: char)
    requires c == 'n' || c == 'r' || c == '0' || c == 't'
    ensures UnescapeControls([BACKSLASH, c]) == [EscapedChar(c)]
    ensures ReadLiteral([BACKSLASH, c, QUOTE], true) == Some(([EscapedChar(c)], []))
  {
    OneControl(c, 'n', '\n');
    OneControl(c, 'r', '\r');
    OneControl(c, '0', '\0');
    OneControl(c, 't', '\t');
    OneIsKept('\n', 'r', '\r');
    OneIsKept('\n', '0', '\0');
    OneIsKept('\n', 't', '\t');
    OneIsKept('\r', '0', '\0');
    OneIsKept('\r', 't', '\t');
    OneIsKept('\0', 't', '\t');
    assert [BACKSLASH, c, QUOTE][2..] == [QUOTE] && [QUOTE][1..] == [];
  }

  lemma OneControl(c: char, x: char, w: char)
    ensures Replace([BACKSLASH, c], [BACKSLASH, x], [w]) == if c == x then [w] else [BACKSLASH, c]
  {
    if c == x {
      assert [BACKSLASH, c][2..] == [];
    } else {
      ReplaceSkips(BACKSLASH, [c], BACKSLASH, x, w);
      OneIsKept(c, x, w);
      assert [BACKSLASH, c] == [BACKSLASH] + [c];
    }
  }

  lemma OneIsKept(a: char, x: char, w: char)
    ensures Replace([a], [BACKSLASH, x], [w]) == [a]
  {
    assert [a][1..] == [];
  }

  lemma {:induction false} SQLiteServerReads(s: string, rest: string)
    requires rest == [] || rest[0] != QUOTE
    ensures ReadLiteral(Prefixed(s, QUOTE, QUOTE) + [QUOTE] + rest, false) == Some((s, rest))
  {
    if s == [] {
      assert Prefixed(s, QUOTE, QUOTE) + [QUOTE] + rest == [QUOTE] + rest;
    } else {
      var text := Prefixed(s[1..], QUOTE, QUOTE) + [QUOTE] + rest;
      SQLiteServerReads(s[1..], rest);
      if s[0] == QUOTE {
        ReadPair(QUOTE, text, false);
        assert Prefixed(s, QUOTE, QUOTE) + [QUOTE] + rest == [QUOTE, QUOTE] + text;
      } else {
        ReadChar(s[0], text, false);
        assert Prefixed(s, QUOTE, QUOTE) + [QUOTE] + rest == [s[0]] + text;
      }
      assert s == [s[0]] + s[1..];
    }
  }

  lemma SQLiteLiteralIsRead(s: string, rest: string)
    requires rest == [] || rest[0] != QUOTE
    ensures var literal := SQLiteEscape(s, true);
            literal[0] == QUOTE && ReadLiteral(literal[1..] + rest, false) == Some((s, rest))
  {
    ReplacePrefixes(s, QUOTE, QUOTE);
    SQLiteServerReads(s, rest);
    var escaped := SQLiteEscape(s, false);
    assert ([QUOTE] + escaped + [QUOTE])[1..] + rest == escaped + [QUOTE] + rest;
  }

  lemma PGEscapedHead(s: string)
    requires s != []
    ensures Prefixed(Prefixed(s, BACKSLASH, BACKSLASH), BACKSLASH, QUOTE)
         == (if s[0] == QUOTE || s[0] == BACKSLASH then [BACKSLASH, s[0]] else [s[0]])
            + Prefixed(Prefixed(s[1..], BACKSLASH, BACKSLASH), BACKSLASH, QUOTE)
  {
    var a := Prefixed(s[1..], BACKSLASH, BACKSLASH);
    PrefixedUnfolds(s, BACKSLASH, BACKSLASH);
    PrefixedBy(s[0], a, BACKSLASH, QUOTE);
    if s[0] == BACKSLASH {
      PrefixedBy(s[0], [s[0]] + a, BACKSLASH, QUOTE);
      Doubling(s[0], Prefixed(a, BACKSLASH, QUOTE));
    }
  }

  lemma PrefixedBy(a: char, rest: string, p: char, c: char)
    ensures Prefixed([a] + rest, p, c) == (if a == c then [p, c] else [a]) + Prefixed(rest, p, c)
  {
    assert ([a] + rest)[1..] == rest;
  }

  lemma ReadEscaped(a: char, rest: string)
    requires a == QUOTE || a == BACKSLASH
    ensures ReadLiteral([BACKSLASH, a] + rest, true) == ReadOn(a, ReadLiteral(rest, true))
  {
    assert ([BACKSLASH, a] + rest)[2..] == rest;
  }

  lemma {:induction false} PGServerReads(s: string, rest: string)
    requires rest == [] || rest[0] != QUOTE
    ensures ReadLiteral(Prefixed(Prefixed(s, BACKSLASH, BACKSLASH), BACKSLASH, QUOTE) + [QUOTE] + rest, true)
            == Some((s, rest))
  {
    if s == [] {
      NothingBefore([QUOTE]);
    } else {
      var tail := Prefixed(Prefixed(s[1..], BACKSLASH, BACKSLASH), BACKSLASH, QUOTE);
      PGServerReads(s[1..], rest);
      PGEscapedHead(s);
      var text := tail + [QUOTE] + rest;
      var head := if s[0] == QUOTE || s[0] == BACKSLASH then [BACKSLASH, s[0]] else [s[0]];
      Regroup(head, tail, [QUOTE]);
      Regroup(head, tail + [QUOTE], rest);
      if s[0] == QUOTE || s[0] == BACKSLASH {
        ReadEscaped(s[0], text);
      } else {
        ReadChar(s[0], text, true);
      }
      assert s == [s[0]] + s[1..];
    }
  }

  lemma PGLiteralIsRead(s: string, rest: string)
    requires rest == [] || rest[0] != QUOTE
    ensures var literal := PGEscape(s, false, true);
            |literal| > 2 && literal[0] == 'E' && literal[1] == QUOTE
              && ReadLiteral(literal[2..] + rest, true) == Some((s, rest))
  {
    PGEscaped(s);
    PGServerReads(s, rest);
    var escaped := PGEscape(s, false, false);
    assert ("E'" + escaped + [QUOTE])[2..] + rest == escaped + [QUOTE] + rest;
  }
}
