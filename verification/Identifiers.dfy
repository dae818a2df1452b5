/** quoteIdentifier and dequoteIdentifier, with and without a character that glues the
    two halves of a name, as in user@host.
 */
module Identifiers {
  import opened QtStrings
  import opened Escaping

  function IndexOf(s: string, c: char): (i: int)
    ensures -1 <= i < |s|
    ensures i >= 0 ==> s[i] == c
    ensures forall k | 0 <= k < (if i == -1 then |s| else i) :: s[k] != c
  {
    if s == [] then -1
    else if s[0] == c then 0
    else
      var k := IndexOf(s[1..], c);
      if k == -1 then -1 else k + 1
  }

  function QuoteIdentifier(id: string, alwaysQuote: bool, glue: char, q: char): string
    decreases if glue == NUL then 0 else 1
  {
    var i := if glue != NUL then IndexOf(id, glue) else -1;
    if i != -1 then
      QuoteIdentifier(id[..i], true, NUL, q) + [glue] + QuoteIdentifier(id[i + 1..], true, NUL, q)
    else if alwaysQuote then
      [q] + Replace(id, [q], [q, q]) + [q]
    else
      id
  }

  function DequoteIdentifier(id: string, glue: char, q: char): string
  {
    var inner := if |id| >= 2 && id[0] == q && id[|id| - 1] == q then id[1..|id| - 1] else id;
    var joined := if glue != NUL then Replace(inner, [q, glue, q], [glue]) else inner;
    Replace(joined, [q, q], [q])
  }

  /** Without glue, dequoting undoes quoting for every name. */
  lemma IdentifierRoundTrip(id: string, q: char)
    ensures DequoteIdentifier(QuoteIdentifier(id, true, NUL, q), NUL, q) == id
  {
    ReplacePrefixes(id, q, q);
    var quoted := [q] + Prefixed(id, q, q) + [q];
    assert quoted[1..|quoted| - 1] == Prefixed(id, q, q);
    PrefixUndone(id, q, q);
  }

  /** A quote at one end only is not taken off. */
  lemma HalfQuotedIsKept(name: string, q: char)
    requires name != [] && q !in name
    ensures DequoteIdentifier([q] + name, NUL, q) == [q] + name && DequoteIdentifier(name + [q], NUL, q) == name + [q]
    ensures DequoteIdentifier(name, NUL, q) == name
  {
    NothingHalved(name, q);
    HalvedSkips(q, name, q);
    OneAtEnd(name, q);
  }

  lemma {:induction false} NothingHalved(s: string, q: char)
    requires q !in s
    ensures Halved(s, q) == s
  {
    if s != [] {
      NothingHalved(s[1..], q);
      HalvedSkips(s[0], s[1..], q);
      assert s == [s[0]] + s[1..];
    }
  }

  lemma {:induction false} OneAtEnd(s: string, q: char)
    requires q !in s
    ensures Halved(s + [q], q) == s + [q]
  {
    if s == [] {
      assert s + [q] == [q] + [];
      HalvedSkips(q, [], q);
    } else {
      OneAtEnd(s[1..], q);
      assert s + [q] == [s[0]] + (s[1..] + [q]);
      assert s[0] in s;
      HalvedSkips(s[0], s[1..] + [q], q);
    }
  }

  // ---- a server reading the quoted name ----

  /** The name behind an opening quote, in which the quote is doubled, and what follows it. */
  function ReadName(s: string, q: char): Option<(string, string)>
    decreases |s|
  {
    if s == [] then None
    else if s[0] == q then
      if |s| > 1 && s[1] == q then ReadOn(q, ReadName(s[2..], q)) else Some(([], s[1..]))
    else ReadOn(s[0], ReadName(s[1..], q))
  }

  lemma {:induction false} DoubledIsRead(id: string, rest: string, q: char)
    requires rest == [] || rest[0] != q
    ensures ReadName(Prefixed(id, q, q) + ([q] + rest), q) == Some((id, rest))
  {
    var s := Prefixed(id, q, q) + ([q] + rest);
    if id == [] {
      assert s == [q] + rest && s[1..] == rest;
      assert |s| > 1 ==> s[1] == rest[0];
    } else {
      DoubledIsRead(id[1..], rest, q);
      var text := Prefixed(id[1..], q, q) + ([q] + rest);
      if id[0] == q {
        assert s[2..] == text;
      } else {
        assert s[1..] == text;
      }
      assert [id[0]] + id[1..] == id;
    }
  }

  /** Whatever quotes a name has, the server reads exactly that name. */
  lemma NameIsRead(id: string, rest: string, q: char)
    requires rest == [] || rest[0] != q
    ensures var quoted := QuoteIdentifier(id, true, NUL, q);
            quoted[0] == q && ReadName(quoted[1..] + rest, q) == Some((id, rest))
  {
    ReplacePrefixes(id, q, q);
    DoubledIsRead(id, rest, q);
    assert QuoteIdentifier(id, true, NUL, q)[1..] + rest == Prefixed(id, q, q) + ([q] + rest);
  }

  lemma GluedShape(a: string, glue: char, b: string, rest: string)
    requires a != [] && b != []
    ensures (a + [glue] + b)[1..] + rest == a[1..] + ([glue] + (b + rest))
    ensures ([glue] + (b + rest))[..2] == [glue, b[0]] && ([glue] + (b + rest))[2..] == b[1..] + rest
    ensures (a + [glue] + b)[0] == a[0]
  {
  }

  /** With glue, it reads two names, which are the halves at the first glue. */
  lemma HalvesAreRead(id: string, alwaysQuote: bool, rest: string, glue: char, q: char)
    requires glue != NUL && glue != q && glue in id && (rest == [] || rest[0] != q)
    ensures var i := IndexOf(id, glue);
            var quoted := QuoteIdentifier(id, alwaysQuote, glue, q);
            var first := ReadName(quoted[1..] + rest, q);
            && quoted[0] == q && 0 <= i
            && first.Some? && first.value.0 == id[..i] && |first.value.1| >= 2 && first.value.1[..2] == [glue, q]
            && ReadName(first.value.1[2..], q) == Some((id[i + 1..], rest))
  {
    var i := IndexOf(id, glue);
    var a, b := QuoteIdentifier(id[..i], true, NUL, q), QuoteIdentifier(id[i + 1..], true, NUL, q);
    NameIsRead(id[i + 1..], rest, q);
    NameIsRead(id[..i], [glue] + (b + rest), q);
    GluedShape(a, glue, b, rest);
    assert QuoteIdentifier(id, alwaysQuote, glue, q) == a + [glue] + b;
  }

  // ---- with glue ----

  /** One or more quotes, then the glue, then a quote. */
  predicate RunsIntoGlue(s: string, glue: char, q: char)
  {
    && |s| >= 3 && s[0] == q
    && (if s[1] == q then RunsIntoGlue(s[1..], glue, q) else s[1] == glue && s[2] == q)
  }

  /** Somewhere in the text: a quote, the glue, one or more quotes, the glue, and a quote. */
  predicate IsEntangled(s: string, glue: char, q: char)
  {
    && s != []
    && ((|s| >= 2 && s[0] == q && s[1] == glue && RunsIntoGlue(s[2..], glue, q)) || IsEntangled(s[1..], glue, q))
  }

  // Doubled quotes; joining at glue; and then halving quotes.
  function Doubled(s: string, q: char): string
  {
    Prefixed(s, q, q)
  }

  function Joined(s: string, glue: char, q: char): string
  {
    Replace(s, [q, glue, q], [glue])
  }

  function Halved(s: string, q: char): string
  {
    Replace(s, [q, q], [q])
  }

  lemma JoinedSkips(c: char, rest: string, glue: char, q: char)
    requires !(c == q && |rest| >= 2 && rest[0] == glue && rest[1] == q)
    ensures Joined([c] + rest, glue, q) == [c] + Joined(rest, glue, q)
  {
    assert ([c] + rest)[1..] == rest;
  }

  lemma JoinedJoins(rest: string, glue: char, q: char)
    ensures Joined([q, glue, q] + rest, glue, q) == [glue] + Joined(rest, glue, q)
  {
    assert ([q, glue, q] + rest)[3..] == rest;
  }

  lemma HalvedPair(rest: string, q: char)
    ensures Halved([q] + ([q] + rest), q) == [q] + Halved(rest, q)
  {
    assert [q] + ([q] + rest) == [q, q] + rest;
    ReplaceFront(q, q, rest, q);
  }

  lemma HalvedSkips(c: char, rest: string, q: char)
    requires c != q || rest == [] || rest[0] != q
    ensures Halved([c] + rest, q) == [c] + Halved(rest, q)
  {
    ReplaceSkips(c, rest, q, q, q);
  }

  /** Joining leaves the first character of a doubled text alone. */
  lemma JoinedHead(s: string, glue: char, q: char)
    requires q != glue
    ensures s == [] ==> Joined(Doubled(s, q), glue, q) == []
    ensures s != [] ==> Joined(Doubled(s, q), glue, q) != [] && Joined(Doubled(s, q), glue, q)[0] == s[0]
  {
    if s != [] {
      var rest := Doubled(s[1..], q);
      if s[0] == q {
        assert Doubled(s, q) == [q] + ([q] + rest);
        JoinedSkips(q, [q] + rest, glue, q);
      } else {
        JoinedSkips(s[0], rest, glue, q);
      }
    }
  }

  /** What is left of a right half after its quotes were doubled, joined and halved. */
  function Kept(s: string, glue: char, q: char): string
  {
    Halved(Joined(Doubled(s, q), glue, q), q)
  }

  /** The same when joining has taken the first of the doubled quotes. */
  function KeptOfRest(s: string, glue: char, q: char): string
    requires s != [] && s[0] == q
  {
    Halved(Joined([q] + Doubled(s[1..], q), glue, q), q)
  }

  lemma KeptPlain(s: string, glue: char, q: char)
    requires q != glue && s != [] && s[0] != q
    ensures Kept(s, glue, q) == [s[0]] + Kept(s[1..], glue, q)
  {
    JoinedSkips(s[0], Doubled(s[1..], q), glue, q);
    HalvedSkips(s[0], Joined(Doubled(s[1..], q), glue, q), q);
  }

  /** A quote that does not run into the glue at once. */
  lemma KeptQuote(s: string, glue: char, q: char)
    requires q != glue && s != [] && s[0] == q && !(|s| >= 3 && s[1] == glue && s[2] == q)
    ensures Kept(s, glue, q) == [q] + Kept(s[1..], glue, q)
  {
    var rest := Doubled(s[1..], q);
    DoubledStart(s[1..], glue, q);
    assert Doubled(s, q) == [q] + ([q] + rest);
    JoinedSkips(q, [q] + rest, glue, q);
    JoinedSkips(q, rest, glue, q);
    HalvedPair(Joined(rest, glue, q), q);
  }

  lemma DoubledStart(s: string, glue: char, q: char)
    requires q != glue
    ensures |Doubled(s, q)| >= 2 && Doubled(s, q)[0] == glue && Doubled(s, q)[1] == q
            <==> |s| >= 2 && s[0] == glue && s[1] == q
  {
    if s != [] && s[0] == glue {
      assert Doubled(s, q) == [glue] + Doubled(s[1..], q);
      PrefixedHead(s[1..], q, q);
    }
  }

  lemma KeptGlue(s: string, glue: char, q: char)
    requires q != glue && |s| >= 3 && s[0] == q && s[1] == glue && s[2] == q
    ensures Kept(s, glue, q) == [q] + ([glue] + KeptOfRest(s[2..], glue, q))
    ensures KeptOfRest(s, glue, q) == [glue] + KeptOfRest(s[2..], glue, q)
  {
    var rest := [q] + Doubled(s[3..], q);
    GlueDoubled(s, glue, q);
    assert [q] + Doubled(s[1..], q) == [q, glue, q] + rest;
    JoinedJoins(rest, glue, q);
    JoinedSkips(q, [q] + Doubled(s[1..], q), glue, q);
    HalvedSkips(glue, Joined(rest, glue, q), q);
    HalvedSkips(q, [glue] + Joined(rest, glue, q), q);
  }

  lemma GlueDoubled(s: string, glue: char, q: char)
    requires q != glue && |s| >= 3 && s[0] == q && s[1] == glue && s[2] == q
    ensures Doubled(s[1..], q) == [glue, q, q] + Doubled(s[3..], q) && s[2..][1..] == s[3..]
    ensures Doubled(s, q) == [q] + ([q] + Doubled(s[1..], q))
  {
    assert s[1..][1..] == s[2..] && s[2..][1..] == s[3..];
    assert Doubled(s[2..], q) == [q, q] + Doubled(s[3..], q);
    assert Doubled(s[1..], q) == [glue] + Doubled(s[2..], q);
    assert [glue] + ([q, q] + Doubled(s[3..], q)) == [glue, q, q] + Doubled(s[3..], q);
    assert [q, q] + Doubled(s[1..], q) == [q] + ([q] + Doubled(s[1..], q));
  }

  lemma KeptRestOfQuotes(s: string, glue: char, q: char)
    requires q != glue && |s| >= 2 && s[0] == q && s[1] == q
    ensures KeptOfRest(s, glue, q) == [q] + KeptOfRest(s[1..], glue, q)
  {
    var rest := [q] + Doubled(s[2..], q);
    assert s[1..][1..] == s[2..];
    assert Doubled(s[1..], q) == [q] + rest;
    JoinedSkips(q, [q] + rest, glue, q);
    JoinedSkips(q, rest, glue, q);
    DoubledStart(s[2..], glue, q);
    var x := Joined(rest, glue, q);
    HalvedPairOn(x, q);
  }

  lemma HalvedPairOn(x: string, q: char)
    ensures Halved([q] + ([q] + x), q) == [q] + Halved(x, q)
  {
    HalvedPair(x, q);
  }

  lemma KeptRestQuote(s: string, glue: char, q: char)
    requires q != glue && s != [] && s[0] == q && !(|s| >= 2 && s[1] == q) && !(|s| >= 3 && s[1] == glue && s[2] == q)
    ensures KeptOfRest(s, glue, q) == [q] + Kept(s[1..], glue, q)
  {
    var rest := Doubled(s[1..], q);
    DoubledStart(s[1..], glue, q);
    JoinedSkips(q, rest, glue, q);
    JoinedHead(s[1..], glue, q);
    HalvedSkips(q, Joined(rest, glue, q), q);
  }

  /** A right half comes back exactly when it is not entangled. */
  lemma {:induction false} KeptIff(s: string, glue: char, q: char)
    requires q != glue
    ensures Kept(s, glue, q) == s <==> !IsEntangled(s, glue, q)
    ensures s != [] && s[0] == q ==>
              (KeptOfRest(s, glue, q) == s <==> !IsEntangled(s, glue, q) && !RunsIntoGlue(s, glue, q))
    decreases |s|
  {
    if s == [] {
    } else {
      KeptIff(s[1..], glue, q);
      if s[0] != q {
        KeptPlain(s, glue, q);
        SameTail(s[0], Kept(s[1..], glue, q), s);
      } else if |s| >= 3 && s[1] == glue && s[2] == q {
        KeptGlue(s, glue, q);
        KeptIff(s[2..], glue, q);
        SameTail(glue, KeptOfRest(s[2..], glue, q), s[1..]);
        SameTail(q, [glue] + KeptOfRest(s[2..], glue, q), s);
        assert s[1..][1..] == s[2..];
        assert !(s[1..][0] == q);
      } else {
        KeptQuote(s, glue, q);
        SameTail(q, Kept(s[1..], glue, q), s);
        if |s| >= 2 && s[1] == q {
          KeptRestOfQuotes(s, glue, q);
          SameTail(q, KeptOfRest(s[1..], glue, q), s);
        } else {
          KeptRestQuote(s, glue, q);
        }
      }
    }
  }

  lemma SameTail(c: char, t: string, s: string)
    requires s != []
    ensures [c] + t == s <==> c == s[0] && t == s[1..]
  {
    assert ([c] + t)[1..] == t;
    assert s == [s[0]] + s[1..];
  }

  lemma DoubledFrom(s: string, q: char, rest: string)
    requires s != []
    ensures Doubled(s, q) + rest
         == if s[0] == q then [q] + ([q] + (Doubled(s[1..], q) + rest)) else [s[0]] + (Doubled(s[1..], q) + rest)
  {
    Regroup(if s[0] == q then [q, q] else [s[0]], Doubled(s[1..], q), rest);
  }

  /** The left half comes back with the glue, whatever follows. */
  lemma {:induction false} LeftJoined(l: string, rest: string, glue: char, q: char)
    requires q != glue && glue !in l
    ensures Joined(Doubled(l, q) + ([q, glue, q] + rest), glue, q) == Doubled(l, q) + ([glue] + Joined(rest, glue, q))
  {
    var text, joined := [q, glue, q] + rest, [glue] + Joined(rest, glue, q);
    if l == [] {
      NothingBefore(text);
      NothingBefore(joined);
      JoinedJoins(rest, glue, q);
    } else {
      var tail := Doubled(l[1..], q) + text;
      LeftJoined(l[1..], rest, glue, q);
      DoubledFrom(l, q, text);
      DoubledFrom(l, q, joined);
      PrefixedHead(l[1..], q, q);
      assert tail[0] != glue;
      if l[0] == q {
        JoinedSkips(q, [q] + tail, glue, q);
      }
      JoinedSkips(l[0], tail, glue, q);
    }
  }

  lemma {:induction false} LeftHalved(l: string, rest: string, glue: char, q: char)
    requires q != glue
    ensures Halved(Doubled(l, q) + ([glue] + rest), q) == l + ([glue] + Halved(rest, q))
  {
    if l == [] {
      assert Doubled(l, q) + ([glue] + rest) == [glue] + rest;
      HalvedSkips(glue, rest, q);
      assert l + ([glue] + Halved(rest, q)) == [glue] + Halved(rest, q);
    } else {
      var tail := Doubled(l[1..], q) + ([glue] + rest);
      LeftHalved(l[1..], rest, glue, q);
      if l[0] == q {
        assert Doubled(l, q) + ([glue] + rest) == [q] + ([q] + tail);
        HalvedPair(tail, q);
      } else {
        assert Doubled(l, q) + ([glue] + rest) == [l[0]] + tail;
        HalvedSkips(l[0], tail, q);
      }
      assert l + ([glue] + Halved(rest, q)) == [l[0]] + (l[1..] + ([glue] + Halved(rest, q)));
    }
  }

  /** With glue: a name that holds it comes back exactly when what follows the first glue is
      not entangled; so always when it holds no quote. */
  lemma GluedRoundTrip(id: string, glue: char, q: char)
    requires q != glue && glue != NUL && glue in id
    ensures DequoteIdentifier(QuoteIdentifier(id, true, glue, q), glue, q) == id
       <==> !IsEntangled(id[IndexOf(id, glue) + 1..], glue, q)
  {
    var i := IndexOf(id, glue);
    DequotedGlued(id, glue, q);
    SplitAt(id, i);
    KeptIff(id[i + 1..], glue, q);
    SameRightHalf(id[..i], Kept(id[i + 1..], glue, q), id[i + 1..], glue);
  }

  /** For example, of a.`.``.` the second half loses quotes. */
  lemma EntangledExample()
    ensures var id := "a.`.``.`"; DequoteIdentifier(QuoteIdentifier(id, true, '.', '`'), '.', '`') != id
  {
    var id := "a.`.``.`";
    assert id[0] == 'a' && id[1] == '.';
    FirstOfTwo(id, '.');
    var half := id[2..];
    assert half == "`.``.`";
    assert half[2..] == "``.`" && half[2..][1..] == "`.`" && half[2..][1..][1..] == ".`";
    assert IsEntangled(half, '.', '`');
    GluedRoundTrip(id, '.', '`');
  }

  lemma FirstOfTwo(s: string, c: char)
    requires |s| >= 2 && s[0] != c && s[1] == c
    ensures c in s && IndexOf(s, c) == 1
  {
    assert s[1] in s;
  }

  lemma SplitAt(id: string, i: nat)
    requires i < |id|
    ensures id == id[..i] + ([id[i]] + id[i + 1..])
  {
  }

  lemma DequotedGlued(id: string, glue: char, q: char)
    requires q != glue && glue != NUL && glue in id
    ensures DequoteIdentifier(QuoteIdentifier(id, true, glue, q), glue, q)
         == id[..IndexOf(id, glue)] + ([glue] + Kept(id[IndexOf(id, glue) + 1..], glue, q))
  {
    var l, r := QuotedHalves(id, glue, q);
    DequotedHalves(QuoteIdentifier(id, true, glue, q), l, r, glue, q);
  }

  lemma SameRightHalf(l: string, a: string, b: string, glue: char)
    ensures l + ([glue] + a) == l + ([glue] + b) <==> a == b
  {
    assert (l + ([glue] + a))[|l| + 1..] == a;
    assert (l + ([glue] + b))[|l| + 1..] == b;
  }

  /** The text of a glued name in quotes, around what is between its outer quotes. */
  function QuotedHalf(l: string, r: string, glue: char, q: char): string
  {
    Doubled(l, q) + ([q, glue, q] + Doubled(r, q))
  }

  lemma QuotedHalves(id: string, glue: char, q: char) returns (l: string, r: string)
    requires glue != NUL && glue in id
    ensures l == id[..IndexOf(id, glue)] && r == id[IndexOf(id, glue) + 1..] && glue !in l
    ensures QuoteIdentifier(id, true, glue, q) == [q] + QuotedHalf(l, r, glue, q) + [q]
  {
    var i := IndexOf(id, glue);
    l, r := id[..i], id[i + 1..];
    ReplacePrefixes(l, q, q);
    ReplacePrefixes(r, q, q);
    assert QuoteIdentifier(id, true, glue, q) == ([q] + Doubled(l, q) + [q]) + [glue] + ([q] + Doubled(r, q) + [q]);
    HalvesTogether(Doubled(l, q), Doubled(r, q), glue, q);
  }

  lemma HalvesTogether(a: string, b: string, glue: char, q: char)
    ensures ([q] + a + [q]) + [glue] + ([q] + b + [q]) == [q] + (a + ([q, glue, q] + b)) + [q]
  {
    var left := [q] + a;
    calc {
      (left + [q]) + [glue] + ([q] + b + [q]);
      { Regroup(left, [q], [glue]); assert [q] + [glue] == [q, glue]; }
      left + [q, glue] + ([q] + b + [q]);
      { Regroup(left + [q, glue], [q] + b, [q]); }
      (left + [q, glue] + ([q] + b)) + [q];
      { Regroup(left + [q, glue], [q], b); Regroup(left, [q, glue], [q]); assert [q, glue] + [q] == [q, glue, q]; }
      (left + [q, glue, q] + b) + [q];
      { Regroup(left, [q, glue, q], b); Regroup([q], a, [q, glue, q] + b); }
      ([q] + (a + ([q, glue, q] + b))) + [q];
    }
  }

  lemma DequotedHalves(quoted: string, l: string, r: string, glue: char, q: char)
    requires q != glue && glue != NUL && glue !in l && quoted == [q] + QuotedHalf(l, r, glue, q) + [q]
    ensures DequoteIdentifier(quoted, glue, q) == l + ([glue] + Kept(r, glue, q))
  {
    var inner := QuotedHalf(l, r, glue, q);
    assert quoted[1..|quoted| - 1] == inner;
    LeftJoined(l, Doubled(r, q), glue, q);
    LeftHalved(l, Joined(Doubled(r, q), glue, q), glue, q);
  }

  lemma {:induction false} NoQuoteNotEntangled(s: string, glue: char, q: char)
    requires q !in s
    ensures !IsEntangled(s, glue, q)
  {
    if s != [] {
      NoQuoteNotEntangled(s[1..], glue, q);
    }
  }

  /** A name without the glue is quoted as if there were none; it comes back too, unless
      joining sees glue in it. */
  lemma UngluedRoundTrip(id: string, glue: char, q: char)
    requires glue != NUL && glue !in id && q != glue
    ensures DequoteIdentifier(QuoteIdentifier(id, true, glue, q), glue, q) == id
  {
    ReplacePrefixes(id, q, q);
    var quoted := [q] + Doubled(id, q) + [q];
    assert quoted[1..|quoted| - 1] == Doubled(id, q);
    NoGlueNoJoin(id, glue, q);
    PrefixUndone(id, q, q);
  }

  lemma {:induction false} NoGlueNoJoin(s: string, glue: char, q: char)
    requires q != glue && glue !in s
    ensures Joined(Doubled(s, q), glue, q) == Doubled(s, q)
  {
    if s != [] {
      var rest := Doubled(s[1..], q);
      NoGlueNoJoin(s[1..], glue, q);
      PrefixedHead(s[1..], q, q);
      if s[0] == q {
        assert Doubled(s, q) == [q] + ([q] + rest);
        JoinedSkips(q, rest, glue, q);
        JoinedSkips(q, [q] + rest, glue, q);
      } else {
        JoinedSkips(s[0], rest, glue, q);
      }
    }
  }
}
