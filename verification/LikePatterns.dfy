/** applyLikeFilter: what a value stands for that was escaped with its joker characters and put
    between two of them.
 */
module LikePatterns {
  import opened QtStrings
  import opened Escaping

  // ---- the pattern a server takes from a text ----

  datatype Item = AnyText | AnyChar | Exactly(c: char)

  /** A percent sign and an underscore are jokers, and a backslash makes the next character
      stand for itself. */
  function Items(p: string): seq<Item>
    decreases |p|
  {
    if p == [] then []
    else if p[0] == BACKSLASH && |p| > 1 then [Exactly(p[1])] + Items(p[2..])
    else [if p[0] == '%' then AnyText else if p[0] == '_' then AnyChar else Exactly(p[0])] + Items(p[1..])
  }

  function ExactItems(v: string): seq<Item>
  {
    seq(|v|, i requires 0 <= i < |v| => Exactly(v[i]))
  }

  /** Any text that has the value in it. */
  function Contains(v: string): seq<Item>
  {
    [AnyText] + ExactItems(v) + [AnyText]
  }

  /** The text of a literal in MySQL, which leaves a backslash before a joker character, and what
      follows the literal. */
  function ReadMySQL(s: string): Option<(string, string)>
    decreases |s|
  {
    if s == [] then None
    else if s[0] == QUOTE then
      if |s| > 1 && s[1] == QUOTE then ReadOn(QUOTE, ReadMySQL(s[2..])) else Some(([], s[1..]))
    else if s[0] == BACKSLASH then
      if |s| == 1 then None
      else if s[1] == '%' || s[1] == '_' then ReadOn(BACKSLASH, ReadOn(s[1], ReadMySQL(s[2..])))
      else ReadOn(EscapedChar(s[1]), ReadMySQL(s[2..]))
    else ReadOn(s[0], ReadMySQL(s[1..]))
  }

  // ---- escaping character by character ----

  function MySQLPiece(c: char): string
  {
    if c == QUOTE || c == BACKSLASH then [c, c] else if c == '%' || c == '_' then [BACKSLASH, c] else [c]
  }

  function PGPiece(c: char): string
  {
    if c == QUOTE || c == BACKSLASH || c == '%' || c == '_' then [BACKSLASH, c] else [c]
  }

  function MySQLPieces(v: string): string
  {
    if v == [] then [] else MySQLPiece(v[0]) + MySQLPieces(v[1..])
  }

  function PGPieces(v: string): string
  {
    if v == [] then [] else PGPiece(v[0]) + PGPieces(v[1..])
  }

  lemma {:induction false} PrefixedJoin(a: string, b: string, p: char, c: char)
    ensures Prefixed(a + b, p, c) == Prefixed(a, p, c) + Prefixed(b, p, c)
  {
    if a == [] {
      assert a + b == b;
    } else {
      assert (a + b)[1..] == a[1..] + b;
      PrefixedJoin(a[1..], b, p, c);
    }
  }

  function Jokers(s: string): string
  {
    Prefixed(Prefixed(s, BACKSLASH, '%'), BACKSLASH, '_')
  }

  lemma JokersJoin(a: string, b: string)
    ensures Jokers(a + b) == Jokers(a) + Jokers(b)
  {
    PrefixedJoin(a, b, BACKSLASH, '%');
    PrefixedJoin(Prefixed(a, BACKSLASH, '%'), Prefixed(b, BACKSLASH, '%'), BACKSLASH, '_');
  }

  lemma PrefixedOne(c: char, p: char, x: char)
    ensures Prefixed([c], p, x) == if c == x then [p, c] else [c]
  {
    assert [c][1..] == [];
  }

  lemma PrefixedTwo(a: char, c: char, p: char, x: char)
    requires a != x
    ensures Prefixed([a, c], p, x) == if c == x then [a, p, c] else [a, c]
  {
    assert [a, c][1..] == [c];
    PrefixedOne(c, p, x);
  }

  lemma JokersOfOne(c: char)
    ensures Jokers([c]) == if c == '%' || c == '_' then [BACKSLASH, c] else [c]
  {
    PrefixedOne(c, BACKSLASH, '%');
    PrefixedOne(c, BACKSLASH, '_');
    PrefixedTwo(BACKSLASH, c, BACKSLASH, '_');
  }

  lemma JokersOfTwo(a: char, c: char)
    requires a != '%' && a != '_' && c != '%' && c != '_'
    ensures Jokers([a, c]) == [a, c]
  {
    PrefixedTwo(a, c, BACKSLASH, '%');
    PrefixedTwo(a, c, BACKSLASH, '_');
  }

  lemma MySQLOne(c: char)
    ensures Jokers(Prefixed(Prefixed([c], QUOTE, QUOTE), BACKSLASH, BACKSLASH)) == MySQLPiece(c)
  {
    PrefixedOne(c, QUOTE, QUOTE);
    PrefixedOne(c, BACKSLASH, BACKSLASH);
    PrefixedTwo(QUOTE, QUOTE, BACKSLASH, BACKSLASH);
    JokersOfOne(c);
    if c == QUOTE || c == BACKSLASH {
      JokersOfTwo(c, c);
    }
  }

  lemma PGOne(c: char)
    ensures Jokers(Prefixed(Prefixed([c], BACKSLASH, BACKSLASH), BACKSLASH, QUOTE)) == PGPiece(c)
  {
    PrefixedOne(c, BACKSLASH, BACKSLASH);
    PrefixedOne(c, BACKSLASH, QUOTE);
    PrefixedTwo(BACKSLASH, BACKSLASH, BACKSLASH, QUOTE);
    JokersOfOne(c);
    if c == QUOTE || c == BACKSLASH {
      JokersOfTwo(BACKSLASH, c);
    }
  }

  lemma {:induction false} MySQLIsPiecewise(v: string)
    ensures Jokers(Prefixed(Prefixed(v, QUOTE, QUOTE), BACKSLASH, BACKSLASH)) == MySQLPieces(v)
  {
    if v != [] {
      var a, b := [v[0]], v[1..];
      assert v == a + b;
      PrefixedJoin(a, b, QUOTE, QUOTE);
      PrefixedJoin(Prefixed(a, QUOTE, QUOTE), Prefixed(b, QUOTE, QUOTE), BACKSLASH, BACKSLASH);
      JokersJoin(Prefixed(Prefixed(a, QUOTE, QUOTE), BACKSLASH, BACKSLASH),
                 Prefixed(Prefixed(b, QUOTE, QUOTE), BACKSLASH, BACKSLASH));
      MySQLOne(v[0]);
      MySQLIsPiecewise(b);
    }
  }

  lemma {:induction false} PGIsPiecewise(v: string)
    ensures Jokers(Prefixed(Prefixed(v, BACKSLASH, BACKSLASH), BACKSLASH, QUOTE)) == PGPieces(v)
  {
    if v != [] {
      var a, b := [v[0]], v[1..];
      assert v == a + b;
      PrefixedJoin(a, b, BACKSLASH, BACKSLASH);
      PrefixedJoin(Prefixed(a, BACKSLASH, BACKSLASH), Prefixed(b, BACKSLASH, BACKSLASH), BACKSLASH, QUOTE);
      JokersJoin(Prefixed(Prefixed(a, BACKSLASH, BACKSLASH), BACKSLASH, QUOTE),
                 Prefixed(Prefixed(b, BACKSLASH, BACKSLASH), BACKSLASH, QUOTE));
      PGOne(v[0]);
      PGIsPiecewise(b);
    }
  }

  lemma ReplacedJokers(s: string)
    ensures Replace(Replace(s, "%", "\\%"), "_", "\\_") == Jokers(s)
  {
    ReplacePrefixes(s, BACKSLASH, '%');
    ReplacePrefixes(Prefixed(s, BACKSLASH, '%'), BACKSLASH, '_');
  }

  lemma MySQLEscapedPieces(v: string)
    ensures MySQLEscape(v, true, false) == MySQLPieces(v)
  {
    ReplacePrefixes(v, QUOTE, QUOTE);
    ReplacePrefixes(Prefixed(v, QUOTE, QUOTE), BACKSLASH, BACKSLASH);
    ReplacedJokers(Prefixed(Prefixed(v, QUOTE, QUOTE), BACKSLASH, BACKSLASH));
    MySQLIsPiecewise(v);
  }

  lemma PGEscapedPieces(v: string)
    ensures PGEscape(v, true, false) == PGPieces(v)
  {
    ReplacePrefixes(v, BACKSLASH, BACKSLASH);
    ReplacePrefixes(Prefixed(v, BACKSLASH, BACKSLASH), BACKSLASH, QUOTE);
    ReplacedJokers(Prefixed(Prefixed(v, BACKSLASH, BACKSLASH), BACKSLASH, QUOTE));
    PGIsPiecewise(v);
  }

  // ---- MySQL: the pattern in the literal ----

  /** What is left of a value in the pattern: jokers keep their backslash, other backslashes are
      single again. */
  function MySQLPattern(v: string): string
  {
    if v == [] then []
    else (if v[0] == '%' || v[0] == '_' then [BACKSLASH, v[0]] else [v[0]]) + MySQLPattern(v[1..])
  }

  lemma ReadMySQLPiece(c: char, text: string)
    ensures ReadMySQL(MySQLPiece(c) + text)
         == if c == '%' || c == '_' then ReadOn(BACKSLASH, ReadOn(c, ReadMySQL(text))) else ReadOn(c, ReadMySQL(text))
  {
    var s := MySQLPiece(c) + text;
    if |MySQLPiece(c)| == 2 {
      assert s[2..] == text;
    } else {
      assert s[1..] == text;
    }
  }

  lemma PatternPiece(v: string, p: string)
    requires v != []
    ensures var tail := [v[0]] + (MySQLPattern(v[1..]) + p);
            MySQLPattern(v) + p == if v[0] == '%' || v[0] == '_' then [BACKSLASH] + tail else tail
  {
  }

  lemma {:induction false} MySQLPatternIsRead(v: string, end: string, p: string, rest: string)
    requires ReadMySQL(end) == Some((p, rest))
    ensures ReadMySQL(MySQLPieces(v) + end) == Some((MySQLPattern(v) + p, rest))
  {
    if v == [] {
      NothingBefore(end);
      NothingBefore(p);
    } else {
      MySQLPatternIsRead(v[1..], end, p, rest);
      Regroup(MySQLPiece(v[0]), MySQLPieces(v[1..]), end);
      ReadMySQLPiece(v[0], MySQLPieces(v[1..]) + end);
      PatternPiece(v, p);
    }
  }

  lemma ItemsOfEscaped(c: char, text: string)
    ensures Items([BACKSLASH, c] + text) == [Exactly(c)] + Items(text)
  {
    assert ([BACKSLASH, c] + text)[2..] == text;
  }

  lemma ItemsOfPlain(c: char, text: string)
    requires c != BACKSLASH && c != '%' && c != '_'
    ensures Items([c] + text) == [Exactly(c)] + Items(text)
  {
    assert ([c] + text)[1..] == text;
  }

  lemma ItemsOfJoker(c: char, text: string)
    requires c == '%' || c == '_'
    ensures Items([c] + text) == [if c == '%' then AnyText else AnyChar] + Items(text)
  {
    assert ([c] + text)[1..] == text;
  }

  lemma LastJoker()
    ensures Items("%") == [AnyText]
  {
    assert "%"[1..] == [];
  }

  lemma ExactCons(v: string, end: seq<Item>)
    requires v != []
    ensures ExactItems(v) + end == [Exactly(v[0])] + (ExactItems(v[1..]) + end)
  {
  }

  /** A pattern without other backslashes stands for the value itself. */
  lemma {:induction false} PlainPatternIsExact(v: string)
    requires BACKSLASH !in v
    ensures Items(MySQLPattern(v) + "%") == ExactItems(v) + [AnyText]
  {
    if v == [] {
      LastJoker();
      assert MySQLPattern(v) + "%" == "%";
    } else {
      PlainPatternIsExact(v[1..]);
      var text := MySQLPattern(v[1..]) + "%";
      ExactCons(v, [AnyText]);
      if v[0] == '%' || v[0] == '_' {
        Regroup([BACKSLASH, v[0]], MySQLPattern(v[1..]), "%");
        ItemsOfEscaped(v[0], text);
      } else {
        Regroup([v[0]], MySQLPattern(v[1..]), "%");
        assert v[0] in v;
        ItemsOfPlain(v[0], text);
      }
    }
  }

  function CountExact(items: seq<Item>): nat
  {
    if items == [] then 0 else (if items[0].Exactly? then 1 else 0) + CountExact(items[1..])
  }

  lemma CountCons(x: Item, items: seq<Item>)
    ensures CountExact([x] + items) == (if x.Exactly? then 1 else 0) + CountExact(items)
  {
    assert ([x] + items)[1..] == items;
  }

  /** Too few characters stand for themselves, or the joker at the end is lost. */
  predicate IsSpoiled(v: string)
  {
    var items := Items(MySQLPattern(v) + "%");
    CountExact(items) < |v| || AnyText !in items
  }

  lemma {:induction false} BackslashSpoils(v: string)
    ensures CountExact(Items(MySQLPattern(v) + "%")) <= |v|
    ensures BACKSLASH in v ==> IsSpoiled(v)
    decreases |v|
  {
    if v == [] {
      LastJoker();
      assert MySQLPattern(v) + "%" == "%";
      CountCons(AnyText, []);
    } else {
      var text := MySQLPattern(v[1..]) + "%";
      BackslashSpoils(v[1..]);
      assert v == [v[0]] + v[1..];
      if v[0] == '%' || v[0] == '_' {
        Regroup([BACKSLASH, v[0]], MySQLPattern(v[1..]), "%");
        ItemsOfEscaped(v[0], text);
        CountCons(Exactly(v[0]), Items(text));
      } else if v[0] != BACKSLASH {
        Regroup([v[0]], MySQLPattern(v[1..]), "%");
        ItemsOfPlain(v[0], text);
        CountCons(Exactly(v[0]), Items(text));
      } else {
        if |v| > 1 {
          BackslashSpoils(v[2..]);
          BackslashTakes(v);
        } else {
          assert MySQLPattern(v) + "%" == [BACKSLASH, '%'];
          LastIsTaken();
        }
      }
    }
  }

  lemma JokerIsFreed(c: char, tail: string)
    requires c == '%' || c == '_'
    ensures CountExact(Items([BACKSLASH, BACKSLASH] + ([c] + tail))) == 1 + CountExact(Items(tail))
  {
    ItemsOfEscaped(BACKSLASH, [c] + tail);
    ItemsOfJoker(c, tail);
    CountCons(Exactly(BACKSLASH), Items([c] + tail));
    CountCons(if c == '%' then AnyText else AnyChar, Items(tail));
  }

  lemma EscapedIsExact(c: char, tail: string)
    ensures CountExact(Items([BACKSLASH, c] + tail)) == 1 + CountExact(Items(tail))
  {
    ItemsOfEscaped(c, tail);
    CountCons(Exactly(c), Items(tail));
  }

  /** At the end of a value, a backslash takes the joker that is put there. */
  lemma LastIsTaken()
    ensures Items([BACKSLASH, '%']) == [Exactly('%')]
  {
    NothingBehind([BACKSLASH, '%']);
    ItemsOfEscaped('%', []);
  }

  /** Anywhere else it takes the next character, or the backslash that this one got. */
  lemma BackslashTakes(v: string)
    requires |v| > 1 && v[0] == BACKSLASH
    ensures CountExact(Items(MySQLPattern(v) + "%")) == 1 + CountExact(Items(MySQLPattern(v[2..]) + "%"))
  {
    var c, tail := v[1], MySQLPattern(v[2..]) + "%";
    assert v[1..][0] == c && v[1..][1..] == v[2..];
    PatternPiece(v, "%");
    PatternPiece(v[1..], "%");
    if c == '%' || c == '_' {
      Regroup([BACKSLASH], [BACKSLASH], [c] + tail);
      assert [BACKSLASH] + [BACKSLASH] == [BACKSLASH, BACKSLASH];
      JokerIsFreed(c, tail);
    } else {
      Regroup([BACKSLASH], [c], tail);
      assert [BACKSLASH] + [c] == [BACKSLASH, c];
      EscapedIsExact(c, tail);
    }
  }

  lemma {:induction false} ExactCount(v: string)
    ensures CountExact(ExactItems(v) + [AnyText]) == |v|
  {
    if v == [] {
      CountCons(AnyText, []);
      assert ExactItems(v) + [AnyText] == [AnyText] + [];
    } else {
      ExactCount(v[1..]);
      ExactCons(v, [AnyText]);
      CountCons(Exactly(v[0]), ExactItems(v[1..]) + [AnyText]);
    }
  }

  lemma MySQLPatternIff(v: string)
    ensures Items("%" + (MySQLPattern(v) + "%")) == Contains(v) <==> BACKSLASH !in v
  {
    var p := MySQLPattern(v) + "%";
    ItemsOfJoker('%', p);
    assert Contains(v) == [AnyText] + (ExactItems(v) + [AnyText]);
    assert ([AnyText] + Items(p))[1..] == Items(p) && Contains(v)[1..] == ExactItems(v) + [AnyText];
    if BACKSLASH in v {
      BackslashSpoils(v);
      ExactCount(v);
      assert (ExactItems(v) + [AnyText])[|v|] == AnyText;
    } else {
      PlainPatternIsExact(v);
    }
  }

  // ---- PostgreSQL: the literal ends at its first quote ----

  lemma PercentThenQuote(rest: string)
    requires rest == [] || rest[0] != QUOTE
    ensures ReadMySQL("%'" + rest) == ReadLiteral("%'" + rest, false) == Some(("%", rest))
  {
    var s, t := "%'" + rest, [QUOTE] + rest;
    assert s[1..] == t && t[1..] == rest;
    assert rest != [] ==> t[1] == rest[0];
    NothingBehind(['%']);
  }

  lemma {:induction false} PGLiteralEnds(v: string, rest: string)
    requires rest == [] || rest[0] != QUOTE
    ensures var r := ReadLiteral(PGPieces(v) + ("%'" + rest), false);
            && r.Some?
            && (QUOTE !in v ==> r.value == (PGPieces(v) + "%", rest))
            && (QUOTE in v ==> |r.value.1| > |rest|)
  {
    var end := "%'" + rest;
    if v == [] {
      NothingBefore(end);
      NothingBefore("%");
      PercentThenQuote(rest);
    } else {
      var c, piece, text := v[0], PGPiece(v[0]), PGPieces(v[1..]) + end;
      Regroup(piece, PGPieces(v[1..]), end);
      Regroup(piece, PGPieces(v[1..]), "%");
      PGLiteralEnds(v[1..], rest);
      assert v == [c] + v[1..];
      if c == QUOTE {
        PGPiecesAhead(v[1..], end);
        QuoteEnds(text);
      } else {
        PlainPieceIsRead(c, text);
      }
    }
  }

  /** No piece starts with a quote. */
  lemma PGPiecesAhead(v: string, end: string)
    requires end != [] && end[0] != QUOTE
    ensures (PGPieces(v) + end)[0] != QUOTE
  {
  }

  lemma QuoteEnds(text: string)
    requires text != [] && text[0] != QUOTE
    ensures ReadLiteral([BACKSLASH, QUOTE] + text, false) == Some(([BACKSLASH], text))
  {
    var s, t := [BACKSLASH, QUOTE] + text, [QUOTE] + text;
    assert s[1..] == t && t[1..] == text && t[1] == text[0];
    NothingBehind([BACKSLASH]);
  }

  lemma PlainPieceIsRead(c: char, text: string)
    requires c != QUOTE && ReadLiteral(text, false).Some?
    ensures ReadLiteral(PGPiece(c) + text, false)
         == Some((PGPiece(c) + ReadLiteral(text, false).value.0, ReadLiteral(text, false).value.1))
  {
    var s := PGPiece(c) + text;
    if |PGPiece(c)| == 2 {
      assert s[1..] == [c] + text && s[1..][1..] == text;
      Regroup([BACKSLASH], [c], ReadLiteral(text, false).value.0);
      assert [BACKSLASH] + [c] == [BACKSLASH, c];
    } else {
      assert s[1..] == text;
    }
  }

  lemma {:induction false} PGPatternIsExact(v: string)
    ensures Items(PGPieces(v) + "%") == ExactItems(v) + [AnyText]
  {
    if v == [] {
      LastJoker();
      assert PGPieces(v) + "%" == "%";
    } else {
      PGPatternIsExact(v[1..]);
      ExactCons(v, [AnyText]);
      Regroup(PGPiece(v[0]), PGPieces(v[1..]), "%");
      if |PGPiece(v[0])| == 2 {
        ItemsOfEscaped(v[0], PGPieces(v[1..]) + "%");
      } else {
        ItemsOfPlain(v[0], PGPieces(v[1..]) + "%");
      }
    }
  }

  // ---- the results ----

  /** In MySQL, the condition of the filter asks for the texts with the value in them if and only
      if the value has no backslash. */
  lemma MySQLFilterIff(v: string, rest: string)
    requires rest == [] || rest[0] != QUOTE
    ensures var r := ReadMySQL("%" + (MySQLEscape(v, true, false) + ("%'" + rest)));
            && r.Some? && r.value.1 == rest
            && (Items(r.value.0) == Contains(v) <==> BACKSLASH !in v)
  {
    var text := MySQLPieces(v) + ("%'" + rest);
    MySQLEscapedPieces(v);
    PercentThenQuote(rest);
    MySQLPatternIsRead(v, "%'" + rest, "%", rest);
    assert ("%" + text)[1..] == text;
    MySQLPatternIff(v);
  }

  /** In PostgreSQL, where a backslash is nothing special in a literal, if and only if it has no
      quote: the first one ends the literal. */
  lemma PGFilterIff(v: string, rest: string)
    requires rest == [] || rest[0] != QUOTE
    ensures var r := ReadLiteral("%" + (PGEscape(v, true, false) + ("%'" + rest)), false);
            r.Some? && r.value.1 == rest && Items(r.value.0) == Contains(v) <==> QUOTE !in v
  {
    var text := PGPieces(v) + ("%'" + rest);
    PGEscapedPieces(v);
    PGLiteralEnds(v, rest);
    assert ("%" + text)[1..] == text;
    if QUOTE !in v {
      PGPatternIsExact(v);
      ItemsOfJoker('%', PGPieces(v) + "%");
      assert Contains(v) == [AnyText] + (ExactItems(v) + [AnyText]);
    }
  }
}
