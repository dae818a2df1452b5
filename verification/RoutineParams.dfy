/** The parameter list in the text of a routine: found by counting parentheses outside of
    quoted names, against the list RoutineEditor prints.
 */
module RoutineParams {
  import opened QtStrings
  import opened Escaping
  import opened Identifiers

  /** The nesting and the quoting after a character; at depth 0 or less a parenthesis that
      closes ends the list. */
  function LevelAt(c: char, depth: int, inLiteral: bool): int
  {
    if c == ')' && !inLiteral then depth - 1 else depth
  }

  predicate EndsAt(c: char, depth: int, inLiteral: bool)
  {
    c == ')' && !inLiteral && depth <= 1
  }

  function LiteralAfter(c: char, inLiteral: bool, q: char): bool
  {
    if c == q then !inLiteral else inLiteral
  }

  function DepthAfter(c: char, depth: int, inLiteral: bool, q: char): int
  {
    LevelAt(c, depth, inLiteral) + if c == '(' && !LiteralAfter(c, inLiteral, q) then 1 else 0
  }

  /** The text collected from here on. */
  function ParamsText(s: string, depth: int, inLiteral: bool, q: char): string
  {
    if s == [] || EndsAt(s[0], depth, inLiteral) then []
    else
      var rest := ParamsText(s[1..], DepthAfter(s[0], depth, inLiteral, q), LiteralAfter(s[0], inLiteral, q), q);
      if LevelAt(s[0], depth, inLiteral) >= 1 then [s[0]] + rest else rest
  }

  /** How many characters precede the end of the list. */
  function ParamsLength(s: string, depth: int, inLiteral: bool, q: char): (n: nat)
    ensures n <= |s|
  {
    if s == [] || EndsAt(s[0], depth, inLiteral) then 0
    else 1 + ParamsLength(s[1..], DepthAfter(s[0], depth, inLiteral, q), LiteralAfter(s[0], inLiteral, q), q)
  }

  /** The loop over the text of a CREATE statement from pos on. */
  method ScanParams(sql: string, from: nat, q: char) returns (params: string, pos: nat)
    requires from <= |sql|
    ensures pos == from + ParamsLength(sql[from..], 0, false, q)
    ensures params == ParamsText(sql[from..], 0, false, q)
  {
    params, pos := [], from;
    var parenthesesCount := 0;
    var inLiteral := false;
    while pos < |sql|
      invariant from <= pos <= |sql|
      invariant ParamsLength(sql[from..], 0, false, q)
                == pos - from + ParamsLength(sql[pos..], parenthesesCount, inLiteral, q)
      invariant ParamsText(sql[from..], 0, false, q) == params + ParamsText(sql[pos..], parenthesesCount, inLiteral, q)
    {
      assert sql[pos..][1..] == sql[pos + 1..];
      if sql[pos] == ')' && !inLiteral {
        parenthesesCount := parenthesesCount - 1;
        if parenthesesCount <= 0 {
          break;
        }
      }
      if sql[pos] == q {
        inLiteral := !inLiteral;
      }
      if parenthesesCount >= 1 {
        AppendOne(params, sql[pos],
                  ParamsText(sql[pos + 1..], parenthesesCount + if sql[pos] == '(' && !inLiteral then 1 else 0,
                             inLiteral, q));
        params := params + [sql[pos]];
      }
      if sql[pos] == '(' && !inLiteral {
        parenthesesCount := parenthesesCount + 1;
      }
      pos := pos + 1;
    }
  }

  // ---- texts whose parentheses match ----

  datatype Depth = Depth(level: nat, inLiteral: bool)

  /** The nesting after a text, or None where a parenthesis closes that the text did not open. */
  function Walk(s: string, d: Depth, q: char): Option<Depth>
  {
    if s == [] then Some(d)
    else if s[0] == q then Walk(s[1..], d.(inLiteral := !d.inLiteral), q)
    else if s[0] == '(' && !d.inLiteral then Walk(s[1..], d.(level := d.level + 1), q)
    else if s[0] == ')' && !d.inLiteral then
      if d.level == 0 then None else Walk(s[1..], d.(level := d.level - 1), q)
    else Walk(s[1..], d, q)
  }

  predicate IsBalanced(s: string, q: char)
  {
    Walk(s, Depth(0, false), q) == Some(Depth(0, false))
  }

  lemma {:induction false} WalkOn(a: string, b: string, d: Depth, q: char)
    requires Walk(a, d, q).Some?
    ensures Walk(a + b, d, q) == Walk(b, Walk(a, d, q).value, q)
  {
    if a == [] {
      assert a + b == b;
    } else {
      assert (a + b)[1..] == a[1..] + b;
      var c := a[0];
      var next := if c == q then d.(inLiteral := !d.inLiteral)
                  else if c == '(' && !d.inLiteral then d.(level := d.level + 1)
                  else if c == ')' && !d.inLiteral && d.level > 0 then d.(level := d.level - 1)
                  else d;
      WalkOn(a[1..], b, next, q);
    }
  }

  lemma BalancedJoin(a: string, b: string, q: char)
    requires IsBalanced(a, q) && IsBalanced(b, q)
    ensures IsBalanced(a + b, q)
  {
    WalkOn(a, b, Depth(0, false), q);
  }

  /** A text without parentheses and quotes is balanced. */
  lemma {:induction false} PlainIsBalanced(s: string, d: Depth, q: char)
    requires '(' !in s && ')' !in s && q !in s
    ensures Walk(s, d, q) == Some(d)
  {
    if s != [] {
      PlainIsBalanced(s[1..], d, q);
    }
  }

  /** In quotes, parentheses do not count, and doubled quotes cancel out. */
  lemma {:induction false} DoubledIsTransparent(s: string, level: nat, q: char)
    requires q != '(' && q != ')'
    ensures Walk(Prefixed(s, q, q), Depth(level, true), q) == Some(Depth(level, true))
  {
    if s != [] {
      DoubledIsTransparent(s[1..], level, q);
      var rest := Prefixed(s[1..], q, q);
      if s[0] == q {
        assert Prefixed(s, q, q)[1..] == [q] + rest;
        assert ([q] + rest)[1..] == rest;
      } else {
        assert Prefixed(s, q, q)[1..] == rest;
      }
    }
  }

  lemma QuotedIsBalanced(name: string, q: char)
    requires q != '(' && q != ')'
    ensures IsBalanced(QuoteIdentifier(name, true, NUL, q), q)
  {
    ReplacePrefixes(name, q, q);
    var doubled := Prefixed(name, q, q);
    DoubledIsTransparent(name, 0, q);
    WalkOn(doubled, [q], Depth(0, true), q);
    assert [q] + doubled + [q] == [q] + (doubled + [q]);
    assert ([q] + (doubled + [q]))[1..] == doubled + [q];
    assert Walk([q], Depth(0, true), q) == Walk([], Depth(0, false), q);
  }

  function Next(c: char, d: Depth, q: char): Depth
    requires !(c == ')' && !d.inLiteral && d.level == 0)
  {
    Depth(if d.inLiteral then d.level else if c == '(' then d.level + 1 else if c == ')' then d.level - 1 else d.level,
          if c == q then !d.inLiteral else d.inLiteral)
  }

  lemma WalkStep(s: string, d: Depth, q: char)
    requires q != '(' && q != ')' && s != [] && Walk(s, d, q).Some?
    ensures !(s[0] == ')' && !d.inLiteral && d.level == 0)
    ensures Walk(s, d, q) == Walk(s[1..], Next(s[0], d, q), q)
  {
  }

  /** Inside the list, balanced text is collected as it is. */
  lemma {:induction false} BalancedIsCollected(s: string, d: Depth, rest: string, q: char) returns (e: Depth)
    requires q != '(' && q != ')' && Walk(s, d, q).Some?
    ensures Walk(s, d, q) == Some(e)
    ensures ParamsText(s + rest, d.level + 1, d.inLiteral, q)
            == Prepend(s, ParamsText(rest, e.level + 1, e.inLiteral, q))
    ensures ParamsLength(s + rest, d.level + 1, d.inLiteral, q) == |s| + ParamsLength(rest, e.level + 1, e.inLiteral, q)
  {
    if s == [] {
      e := d;
      assert s + rest == rest;
    } else {
      WalkStep(s, d, q);
      e := BalancedIsCollected(s[1..], Next(s[0], d, q), rest, q);
      CollectMore(s, d, rest, q);
      PrependHead(s, ParamsText(rest, e.level + 1, e.inLiteral, q));
    }
  }

  lemma PrependHead(s: string, t: string)
    requires s != []
    ensures Prepend(s, t) == [s[0]] + Prepend(s[1..], t)
  {
    assert s == [s[0]] + s[1..];
  }

  lemma CollectMore(s: string, d: Depth, rest: string, q: char)
    requires q != '(' && q != ')' && s != [] && !(s[0] == ')' && !d.inLiteral && d.level == 0)
    ensures var next := Next(s[0], d, q);
            && ParamsText(s + rest, d.level + 1, d.inLiteral, q)
               == [s[0]] + ParamsText(s[1..] + rest, next.level + 1, next.inLiteral, q)
            && ParamsLength(s + rest, d.level + 1, d.inLiteral, q)
               == 1 + ParamsLength(s[1..] + rest, next.level + 1, next.inLiteral, q)
  {
    assert (s + rest)[1..] == s[1..] + rest;
  }

  /** Text before the list that opens no parenthesis outside of quotes is skipped. */
  lemma {:induction false} FrontIsSkipped(s: string, inLiteral: bool, rest: string, q: char)
    requires q != '(' && q != ')' && OpensNothing(s, inLiteral, q)
             && Walk(s, Depth(0, inLiteral), q) == Some(Depth(0, false))
    ensures ParamsText(s + rest, 0, inLiteral, q) == ParamsText(rest, 0, false, q)
    ensures ParamsLength(s + rest, 0, inLiteral, q) == |s| + ParamsLength(rest, 0, false, q)
  {
    if s == [] {
      assert s + rest == rest;
    } else {
      assert (s + rest)[1..] == s[1..] + rest;
      FrontIsSkipped(s[1..], LiteralAfter(s[0], inLiteral, q), rest, q);
    }
  }

  predicate OpensNothing(s: string, inLiteral: bool, q: char)
  {
    s == [] || ((inLiteral || (s[0] != '(' && s[0] != ')'))
      && OpensNothing(s[1..], if s[0] == q then !inLiteral else inLiteral, q))
  }

  /** The length of what is collected is at most that of what is scanned. */
  lemma {:induction false} CollectedAtMost(s: string, depth: int, inLiteral: bool, q: char)
    ensures |ParamsText(s, depth, inLiteral, q)| <= ParamsLength(s, depth, inLiteral, q)
  {
    if s != [] && !EndsAt(s[0], depth, inLiteral) {
      CollectedAtMost(s[1..], DepthAfter(s[0], depth, inLiteral, q), LiteralAfter(s[0], inLiteral, q), q);
    }
  }

  /** Where a parenthesis closes that the text did not open, the scan stops. */
  lemma {:induction false} StopsEarly(s: string, d: Depth, rest: string, q: char)
    requires q != '(' && q != ')' && Walk(s, d, q).None?
    ensures ParamsLength(s + rest, d.level + 1, d.inLiteral, q) < |s|
  {
    if !(s[0] == ')' && !d.inLiteral && d.level == 0) {
      CollectMore(s, d, rest, q);
      StopsEarly(s[1..], Next(s[0], d, q), rest, q);
    }
  }

  /** Where one is left open, or a quote, it goes on behind the closing parenthesis. */
  lemma GoesOn(e: Depth, rest: string, q: char)
    requires q != '(' && q != ')' && e != Depth(0, false)
    ensures ParamsText(")" + rest, e.level + 1, e.inLiteral, q) != []
    ensures ParamsLength(")" + rest, e.level + 1, e.inLiteral, q) > 0
  {
    assert (")" + rest)[0] == ')';
  }

  lemma CollectedIff(body: string, rest: string, q: char)
    requires q != '(' && q != ')'
    ensures ParamsText(body + (")" + rest), 1, false, q) == body <==> IsBalanced(body, q)
    ensures ParamsLength(body + (")" + rest), 1, false, q) == |body| <==> IsBalanced(body, q)
  {
    var close := ")" + rest;
    if Walk(body, Depth(0, false), q).None? {
      StopsEarly(body, Depth(0, false), close, q);
      CollectedAtMost(body + close, 1, false, q);
    } else {
      var e := BalancedIsCollected(body, Depth(0, false), close, q);
      if e == Depth(0, false) {
        assert close[0] == ')';
        NothingBehind(body);
      } else {
        GoesOn(e, rest, q);
      }
    }
  }

  /** The scan finds the text between the first parenthesis and a later one, with any nesting
      and any quoted names in between, if and only if parentheses and quotes match in it. */
  lemma ScanFindsListIff(front: string, body: string, rest: string, q: char)
    requires q != '(' && q != ')'
    requires OpensNothing(front, false, q) && Walk(front, Depth(0, false), q) == Some(Depth(0, false))
    ensures var sql := front + ("(" + (body + (")" + rest)));
            && (ParamsText(sql, 0, false, q) == body <==> IsBalanced(body, q))
            && (ParamsLength(sql, 0, false, q) == |front| + 1 + |body| <==> IsBalanced(body, q))
  {
    var inner := body + (")" + rest);
    FrontIsSkipped(front, false, "(" + inner, q);
    assert ("(" + inner)[1..] == inner;
    CollectedIff(body, rest, q);
  }

  // ---- the printed list ----

  datatype Param = Param(context: string, name: string, dataType: string)

  function PrintParam(p: Param, isProcedure: bool, q: char): string
  {
    (if isProcedure then p.context + " " else []) + QuoteIdentifier(p.name, true, NUL, q) + (" " + p.dataType)
  }

  /** The parameters from index i on, joined as QStringList::join does. */
  function PrintFrom(params: seq<Param>, isProcedure: bool, i: nat, q: char): string
    requires i < |params|
    decreases |params| - i
  {
    if i == |params| - 1 then PrintParam(params[i], isProcedure, q)
    else PrintParam(params[i], isProcedure, q) + (",\r\n\t" + PrintFrom(params, isProcedure, i + 1, q))
  }

  function PrintParams(params: seq<Param>, isProcedure: bool, q: char): string
  {
    if params == [] then [] else "\r\n\t" + PrintFrom(params, isProcedure, 0, q)
  }

  /** Contexts are plain words, and parentheses match in data types. */
  ghost predicate IsPrintable(p: Param, q: char)
  {
    '(' !in p.context && ')' !in p.context && q !in p.context && IsBalanced(p.dataType, q)
  }

  lemma HeadIsBalanced(p: Param, isProcedure: bool, q: char)
    requires q != '(' && q != ')' && q != ' ' && '(' !in p.context && ')' !in p.context && q !in p.context
    ensures IsBalanced((if isProcedure then p.context + " " else []) + QuoteIdentifier(p.name, true, NUL, q), q)
  {
    QuotedIsBalanced(p.name, q);
    PlainIsBalanced(p.context + " ", Depth(0, false), q);
    PlainIsBalanced([], Depth(0, false), q);
    BalancedJoin(if isProcedure then p.context + " " else [], QuoteIdentifier(p.name, true, NUL, q), q);
  }

  lemma ParamIsBalanced(p: Param, isProcedure: bool, q: char)
    requires q != '(' && q != ')' && q != ' ' && IsPrintable(p, q)
    ensures IsBalanced(PrintParam(p, isProcedure, q), q)
  {
    HeadIsBalanced(p, isProcedure, q);
    PlainIsBalanced(" ", Depth(0, false), q);
    BalancedJoin(" ", p.dataType, q);
    BalancedJoin((if isProcedure then p.context + " " else []) + QuoteIdentifier(p.name, true, NUL, q),
      " " + p.dataType, q);
  }

  lemma {:induction false} ListIsBalanced(params: seq<Param>, isProcedure: bool, i: nat, q: char)
    requires i < |params| && q !in "(), \r\n\t" && forall p | p in params :: IsPrintable(p, q)
    ensures IsBalanced(PrintFrom(params, isProcedure, i, q), q)
    decreases |params| - i
  {
    ParamIsBalanced(params[i], isProcedure, q);
    if i < |params| - 1 {
      ListIsBalanced(params, isProcedure, i + 1, q);
      PlainIsBalanced(",\r\n\t", Depth(0, false), q);
      BalancedJoin(",\r\n\t", PrintFrom(params, isProcedure, i + 1, q), q);
      BalancedJoin(PrintParam(params[i], isProcedure, q), ",\r\n\t" + PrintFrom(params, isProcedure, i + 1, q), q);
    }
  }

  lemma {:induction false} QuotedOpensNothing(s: string, rest: string, q: char)
    requires q != '(' && q != ')' && OpensNothing(rest, true, q)
    ensures OpensNothing(Prefixed(s, q, q) + rest, true, q)
  {
    if s == [] {
      assert Prefixed(s, q, q) + rest == rest;
    } else {
      var tail := Prefixed(s[1..], q, q) + rest;
      QuotedOpensNothing(s[1..], rest, q);
      if s[0] == q {
        assert Prefixed(s, q, q) + rest == [q] + ([q] + tail);
        QuoteOpensNothing(tail, q);
      } else {
        assert Prefixed(s, q, q) + rest == [s[0]] + tail;
        assert ([s[0]] + tail)[1..] == tail;
      }
    }
  }

  lemma QuoteOpensNothing(tail: string, q: char)
    requires q != '(' && q != ')' && OpensNothing(tail, true, q)
    ensures OpensNothing([q] + ([q] + tail), true, q)
  {
    assert ([q] + ([q] + tail))[1..] == [q] + tail;
    assert ([q] + tail)[1..] == tail;
  }

  /** For every routine and parameter names, whatever characters they hold, the parser cuts
      exactly the printed parameter list out of the printed statement. */
  lemma PrintedListIsFound(routineName: string, params: seq<Param>, isProcedure: bool, rest: string, q: char)
    requires q !in "(), \r\n\t" && forall p | p in params :: IsPrintable(p, q)
    ensures var front := " " + QuoteIdentifier(routineName, true, NUL, q);
            var body := PrintParams(params, isProcedure, q);
            var sql := front + ("(" + (body + (")" + rest)));
            ParamsText(sql, 0, false, q) == body && ParamsLength(sql, 0, false, q) == |front| + 1 + |body|
  {
    var body := PrintParams(params, isProcedure, q);
    assert IsBalanced(body, q) by {
      PlainIsBalanced([], Depth(0, false), q);
      if params != [] {
        ListIsBalanced(params, isProcedure, 0, q);
        PlainIsBalanced("\r\n\t", Depth(0, false), q);
        BalancedJoin("\r\n\t", PrintFrom(params, isProcedure, 0, q), q);
      }
    }
    NameOpensNothing(routineName, q);
    ScanFindsListIff(" " + QuoteIdentifier(routineName, true, NUL, q), body, rest, q);
  }

  /** A list of one parameter is found if and only if parentheses and quotes match in its type. */
  lemma OneParamIsFoundIff(routineName: string, p: Param, isProcedure: bool, rest: string, q: char)
    requires q !in "(), \r\n\t" && '(' !in p.context && ')' !in p.context && q !in p.context
    ensures var front := " " + QuoteIdentifier(routineName, true, NUL, q);
            var body := PrintParams([p], isProcedure, q);
            ParamsText(front + ("(" + (body + (")" + rest))), 0, false, q) == body <==> IsBalanced(p.dataType, q)
  {
    var head := (if isProcedure then p.context + " " else []) + QuoteIdentifier(p.name, true, NUL, q);
    var body := PrintParams([p], isProcedure, q);
    HeadIsBalanced(p, isProcedure, q);
    PlainIsBalanced("\r\n\t", Depth(0, false), q);
    PlainIsBalanced(" ", Depth(0, false), q);
    WalkOn("\r\n\t", head + (" " + p.dataType), Depth(0, false), q);
    WalkOn(head, " " + p.dataType, Depth(0, false), q);
    WalkOn(" ", p.dataType, Depth(0, false), q);
    assert body == "\r\n\t" + (head + (" " + p.dataType));
    NameOpensNothing(routineName, q);
    ScanFindsListIff(" " + QuoteIdentifier(routineName, true, NUL, q), body, rest, q);
  }

  /** For example, the parenthesis in this value is taken for the end of the list. */
  lemma TypeExample()
    ensures !IsBalanced("ENUM('a)')", '`')
  {
    var s := "ENUM('a)')";
    PlainIsBalanced("ENUM", Depth(0, false), '`');
    WalkOn("ENUM", "('a)')", Depth(0, false), '`');
    assert s == "ENUM" + "('a)')";
    PlainIsBalanced("'a", Depth(1, false), '`');
    WalkOn("'a", ")')", Depth(1, false), '`');
    assert "('a)')"[1..] == "'a" + ")')";
    PlainIsBalanced("'", Depth(0, false), '`');
    WalkOn("'", ")", Depth(0, false), '`');
    assert ")')"[1..] == "'" + ")";
  }

  lemma NameOpensNothing(name: string, q: char)
    requires q != '(' && q != ')' && q != ' '
    ensures var front := " " + QuoteIdentifier(name, true, NUL, q);
            OpensNothing(front, false, q) && Walk(front, Depth(0, false), q) == Some(Depth(0, false))
  {
    ReplacePrefixes(name, q, q);
    var doubled := Prefixed(name, q, q);
    var quoted := [q] + doubled + [q];
    assert OpensNothing([q], true, q);
    QuotedOpensNothing(name, [q], q);
    assert quoted[1..] == doubled + [q];
    assert (" " + quoted)[1..] == quoted;
    QuotedIsBalanced(name, q);
  }
}
