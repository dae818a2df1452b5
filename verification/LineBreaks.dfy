/** Scanning a text for its kind of line breaks, and converting it to another kind. */
module LineBreaks {
  import opened QtStrings
  import opened Escaping

  datatype Kind = NoBreaks | Windows | Unix | OldMac | Unicode | Mixed

  const MAX_STR_SCAN_LEN := 1024 * 1024

  const SEPARATOR := '\U{2028}'

  /** The kind of the line break at index i, if there is one. */
  function BreakAt(s: string, i: nat, size: nat): Kind
    requires i < size <= |s|
  {
    if s[i] == CR then (if i + 1 < size && s[i + 1] == LF then Windows else OldMac)
    else if s[i] == LF then Unix
    else if s[i] == SEPARATOR then Unicode
    else NoBreaks
  }

  /** The kinds of the line breaks from index i on, one after another. */
  function BreaksFrom(s: string, i: nat, size: nat): seq<Kind>
    requires i <= size <= |s|
    decreases size - i
  {
    if i == size then []
    else
      var kind := BreakAt(s, i, size);
      var rest := BreaksFrom(s, if kind == Windows then i + 2 else i + 1, size);
      if kind == NoBreaks then rest else [kind] + rest
  }

  /** The one kind of all breaks, if there is just one. */
  function KindOfAll(breaks: seq<Kind>, kind: Kind): Kind
  {
    if breaks == [] then kind
    else if breaks[0] == kind then KindOfAll(breaks[1..], kind)
    else if kind != NoBreaks then Mixed
    else KindOfAll(breaks[1..], breaks[0])
  }

  function Size(s: string): nat
  {
    if |s| < MAX_STR_SCAN_LEN then |s| else MAX_STR_SCAN_LEN
  }

  function Breaks(s: string): seq<Kind>
  {
    BreaksFrom(s, 0, Size(s))
  }

  lemma OneMoreBreak(s: string, i: nat, size: nat, kind: Kind)
    requires i < size <= |s|
    ensures var b := BreakAt(s, i, size);
            var rest := BreaksFrom(s, if b == Windows then i + 2 else i + 1, size);
            KindOfAll(BreaksFrom(s, i, size), kind)
            == if b == NoBreaks || b == kind then KindOfAll(rest, kind)
               else if kind != NoBreaks then Mixed
               else KindOfAll(rest, b)
  {
    var b := BreakAt(s, i, size);
    var rest := BreaksFrom(s, if b == Windows then i + 2 else i + 1, size);
    assert ([b] + rest)[1..] == rest;
  }

  method ScanLineBreaks(s: string) returns (result: Kind)
    ensures result == KindOfAll(Breaks(s), NoBreaks)
  {
    if |s| == 0 {
      return NoBreaks;
    }
    var size := if |s| < MAX_STR_SCAN_LEN then |s| else MAX_STR_SCAN_LEN;
    result := NoBreaks;
    var i := 0;
    while i < size
      invariant i <= size
      invariant KindOfAll(Breaks(s), NoBreaks) == KindOfAll(BreaksFrom(s, i, size), result)
    {
      OneMoreBreak(s, i, size, result);
      var c := s[i];
      var found := NoBreaks;
      if c == CR {
        if i < size - 1 && s[i + 1] == LF {
          found := Windows;
        } else {
          found := OldMac;
        }
      } else if c == LF {
        found := Unix;
      } else if c == SEPARATOR {
        found := Unicode;
      }
      if found != NoBreaks && result != found {
        if result != NoBreaks {
          return Mixed;
        }
        result := found;
      }
      i := if found == Windows then i + 2 else i + 1;
    }
  }

  function StrForLineBreaks(kind: Kind): string
  {
    match kind
    case Windows => [CR, LF]
    case Unix => [LF]
    case OldMac => [CR]
    case Unicode => [SEPARATOR]
    case _ => []
  }

  /** A text is left as it is unless both kinds have characters and differ, and of no characters
      none are counted. */
  lemma NothingConverted(s: string, a: Kind, b: Kind)
    requires a == b || a == NoBreaks || a == Mixed || b == NoBreaks || b == Mixed
    ensures Converted(s, a, b) == s
    ensures CountLineBreaks(s, NoBreaks) == CountLineBreaks(s, Mixed) == 0
  {
  }

  method ReplaceLineBreaks(s: string, oldBreaks: Kind, newBreaks: Kind) returns (r: string)
    ensures r == Converted(s, oldBreaks, newBreaks)
  {
    if newBreaks == oldBreaks {
      return s;
    }
    var beforeStr := StrForLineBreaks(oldBreaks);
    if beforeStr == [] {
      return s;
    }
    var afterStr := StrForLineBreaks(newBreaks);
    if afterStr == [] {
      return s;
    }
    r := Replace(s, beforeStr, afterStr);
  }

  function Converted(s: string, oldBreaks: Kind, newBreaks: Kind): string
  {
    if newBreaks == oldBreaks || StrForLineBreaks(oldBreaks) == [] || StrForLineBreaks(newBreaks) == [] then s
    else Replace(s, StrForLineBreaks(oldBreaks), StrForLineBreaks(newBreaks))
  }

  /** QString::count: at how many indices a text occurs. */
  function Occurrences(s: string, p: string): nat
    requires p != []
  {
    if s == [] then 0 else (if StartsWith(s, p) then 1 else 0) + Occurrences(s[1..], p)
  }

  function CountLineBreaks(s: string, kind: Kind): nat
  {
    if StrForLineBreaks(kind) == [] then 0 else Occurrences(s, StrForLineBreaks(kind))
  }

  // ---- a text as lines ----

  predicate IsConcrete(kind: Kind)
  {
    kind == Windows || kind == Unix || kind == OldMac || kind == Unicode
  }

  predicate IsBreakChar(c: char)
  {
    c == CR || c == LF || c == SEPARATOR
  }

  ghost predicate AreLines(lines: seq<string>)
  {
    lines != [] && forall i | 0 <= i < |lines| :: IsLine(lines[i])
  }

  ghost predicate IsLine(line: string)
  {
    forall c | c in line :: !IsBreakChar(c)
  }

  function Join(lines: seq<string>, sep: string): string
    requires lines != []
  {
    if |lines| == 1 then lines[0] else lines[0] + (sep + Join(lines[1..], sep))
  }

  /** The breaks of a whole text. */
  function BreaksOf(s: string): seq<Kind>
    decreases |s|
  {
    if s == [] then []
    else
      var kind := BreakAt(s, 0, |s|);
      if kind == NoBreaks then BreaksOf(s[1..])
      else [kind] + BreaksOf(s[if kind == Windows then 2 else 1..])
  }

  lemma {:induction false} BreaksOfRest(s: string, i: nat)
    requires i <= |s|
    ensures BreaksFrom(s, i, |s|) == BreaksOf(s[i..])
    decreases |s| - i
  {
    if i < |s| {
      var kind := BreakAt(s, i, |s|);
      var next := if kind == Windows then i + 2 else i + 1;
      BreaksOfRest(s, next);
      assert s[i..][next - i..] == s[next..];
      assert BreakAt(s[i..], 0, |s[i..]|) == kind;
    }
  }

  lemma BreaksOfShort(s: string)
    requires |s| <= MAX_STR_SCAN_LEN
    ensures Breaks(s) == BreaksOf(s)
  {
    BreaksOfRest(s, 0);
    assert s[0..] == s;
  }

  function Repeat(kind: Kind, n: nat): seq<Kind>
  {
    if n == 0 then [] else [kind] + Repeat(kind, n - 1)
  }

  lemma {:induction false} KindOfRepeat(kind: Kind, n: nat)
    requires kind != NoBreaks
    ensures KindOfAll(Repeat(kind, n), kind) == kind
    ensures KindOfAll(Repeat(kind, n), NoBreaks) == if n == 0 then NoBreaks else kind
  {
    if n > 0 {
      KindOfRepeat(kind, n - 1);
      assert Repeat(kind, n)[1..] == Repeat(kind, n - 1);
    }
  }

  lemma {:induction false} OneKindIsRepeat(breaks: seq<Kind>, kind: Kind, start: Kind)
    requires KindOfAll(breaks, start) == kind && (start == kind || start == NoBreaks) && kind != NoBreaks
             && kind != Mixed
    requires NoBreaks !in breaks && Mixed !in breaks
    ensures breaks == Repeat(kind, |breaks|)
  {
    if breaks != [] {
      KindIsKept(breaks[1..], breaks[0]);
      OneKindIsRepeat(breaks[1..], kind, breaks[0]);
      assert breaks == [breaks[0]] + breaks[1..];
    }
  }

  lemma {:induction false} KindIsKept(breaks: seq<Kind>, kind: Kind)
    requires kind != NoBreaks
    ensures KindOfAll(breaks, kind) == kind || KindOfAll(breaks, kind) == Mixed
  {
    if breaks != [] {
      KindIsKept(breaks[1..], kind);
    }
  }

  lemma {:induction false} BreaksAreConcrete(s: string)
    ensures forall b | b in BreaksOf(s) :: IsConcrete(b)
    decreases |s|
  {
    if s != [] {
      var kind := BreakAt(s, 0, |s|);
      BreaksAreConcrete(s[if kind == Windows then 2 else 1..]);
    }
  }

  // ---- a text with one kind of breaks is lines joined by it ----

  /** What stands behind a line: nothing, or a break and more. */
  lemma BreakThenRest(kind: Kind, rest: string)
    requires IsConcrete(kind) && (kind == OldMac ==> rest == [] || rest[0] != LF)
    ensures BreaksOf(StrForLineBreaks(kind) + rest) == [kind] + BreaksOf(rest)
  {
    var s := StrForLineBreaks(kind) + rest;
    assert s[|StrForLineBreaks(kind)|..] == rest;
    assert s[0] == StrForLineBreaks(kind)[0];
    if kind == Windows {
      assert s[1] == LF;
    } else {
      assert |s| > 1 ==> s[1] == rest[0];
    }
  }

  lemma {:induction false} LineThenRest(line: string, rest: string)
    requires IsLine(line)
    ensures BreaksOf(line + rest) == BreaksOf(rest)
  {
    if line == [] {
      assert line + rest == rest;
    } else {
      assert line[0] in line;
      assert (line + rest)[1..] == line[1..] + rest;
      LineThenRest(line[1..], rest);
    }
  }

  lemma JoinStarts(lines: seq<string>, kind: Kind)
    requires AreLines(lines) && IsConcrete(kind)
    ensures var s := Join(lines, StrForLineBreaks(kind)); kind == OldMac ==> s == [] || s[0] != LF
  {
    var s := Join(lines, StrForLineBreaks(kind));
    if lines[0] == [] {
      assert |lines| > 1 ==> s[0] == StrForLineBreaks(kind)[0];
    } else {
      assert s[0] == lines[0][0] && lines[0][0] in lines[0];
    }
  }

  lemma {:induction false} JoinedBreaks(lines: seq<string>, kind: Kind)
    requires AreLines(lines) && IsConcrete(kind)
    ensures BreaksOf(Join(lines, StrForLineBreaks(kind))) == Repeat(kind, |lines| - 1)
  {
    var sep := StrForLineBreaks(kind);
    if |lines| == 1 {
      LineThenRest(lines[0], []);
      assert lines[0] + [] == lines[0];
    } else {
      var rest := Join(lines[1..], sep);
      JoinedBreaks(lines[1..], kind);
      JoinStarts(lines[1..], kind);
      LineThenRest(lines[0], sep + rest);
      BreakThenRest(kind, rest);
    }
  }

  /** The lines of a text whose breaks are all of one kind. */
  lemma {:induction false} ToLines(s: string, kind: Kind, n: nat) returns (lines: seq<string>)
    requires IsConcrete(kind) && BreaksOf(s) == Repeat(kind, n)
    ensures AreLines(lines) && |lines| == n + 1 && Join(lines, StrForLineBreaks(kind)) == s
    decreases |s|
  {
    if s == [] {
      lines := [[]];
    } else {
      var b := BreakAt(s, 0, |s|);
      var sep := StrForLineBreaks(kind);
      if b == NoBreaks {
        var rest := ToLines(s[1..], kind, n);
        lines := FirstCharOn(s[0], rest, sep);
        assert s == [s[0]] + s[1..];
      } else {
        var k := if b == Windows then 2 else 1;
        assert BreaksOf(s)[0] == b && BreaksOf(s)[1..] == BreaksOf(s[k..]);
        assert Repeat(kind, n)[0] == kind && Repeat(kind, n)[1..] == Repeat(kind, n - 1);
        var rest := ToLines(s[k..], kind, n - 1);
        lines := [[]] + rest;
        assert lines[1..] == rest;
        assert s == s[..k] + s[k..] && s[..k] == sep;
        var none: string := [];
        assert none + (sep + s[k..]) == sep + s[k..];
      }
    }
  }

  lemma FirstCharOn(c: char, rest: seq<string>, sep: string) returns (lines: seq<string>)
    requires AreLines(rest) && !IsBreakChar(c)
    ensures AreLines(lines) && |lines| == |rest| && Join(lines, sep) == [c] + Join(rest, sep)
  {
    lines := [[c] + rest[0]] + rest[1..];
    assert lines[1..] == rest[1..];
    assert forall x | x in lines[0] :: x == c || x in rest[0];
    if |rest| > 1 {
      assert ([c] + rest[0]) + (sep + Join(rest[1..], sep)) == [c] + (rest[0] + (sep + Join(rest[1..], sep)));
    }
  }

  // ---- conversion and counting ----

  lemma {:induction false} LineIsKept(line: string, rest: string, p: string, w: string)
    requires IsLine(line) && p != [] && IsBreakChar(p[0])
    ensures Replace(line + rest, p, w) == line + Replace(rest, p, w)
    ensures Occurrences(line + rest, p) == Occurrences(rest, p)
  {
    if line == [] {
      assert line + rest == rest && line + Replace(rest, p, w) == Replace(rest, p, w);
    } else {
      assert line[0] in line;
      var s := line + rest;
      assert s[1..] == line[1..] + rest && s[0] == line[0];
      assert s[0] != p[0] && !StartsWith(s, p);
      LineIsKept(line[1..], rest, p, w);
      assert [line[0]] + (line[1..] + Replace(rest, p, w)) == line + Replace(rest, p, w);
    }
  }

  lemma BreakIsReplaced(kind: Kind, rest: string, w: string)
    requires IsConcrete(kind)
    ensures var p := StrForLineBreaks(kind);
            Replace(p + rest, p, w) == w + Replace(rest, p, w) && Occurrences(p + rest, p) == 1 + Occurrences(rest, p)
  {
    var p := StrForLineBreaks(kind);
    var s := p + rest;
    assert StartsWith(s, p) && s[|p|..] == rest;
    if kind == Windows {
      assert s[1..] == [LF] + rest;
      assert !StartsWith(s[1..], p) by {
        assert s[1..][0] == LF;
      }
      assert s[1..][1..] == rest;
    } else {
      assert s[1..] == rest;
    }
  }

  lemma {:induction false} JoinConverts(lines: seq<string>, kind: Kind, other: Kind)
    requires AreLines(lines) && IsConcrete(kind)
    ensures Replace(Join(lines, StrForLineBreaks(kind)), StrForLineBreaks(kind), StrForLineBreaks(other))
         == Join(lines, StrForLineBreaks(other))
    ensures Occurrences(Join(lines, StrForLineBreaks(kind)), StrForLineBreaks(kind)) == |lines| - 1
  {
    var p, w := StrForLineBreaks(kind), StrForLineBreaks(other);
    if |lines| == 1 {
      LineIsKept(lines[0], [], p, w);
      assert lines[0] + [] == lines[0];
    } else {
      var rest := Join(lines[1..], p);
      JoinConverts(lines[1..], kind, other);
      LineIsKept(lines[0], p + rest, p, w);
      BreakIsReplaced(kind, rest, w);
    }
  }

  ghost function ScanOf(s: string): Kind
  {
    KindOfAll(Breaks(s), NoBreaks)
  }

  /** A text that scans as one kind converts to any other: the result scans as that kind and
      has as many breaks, and converting back restores the text. */
  lemma ConversionRoundTrip(s: string, kind: Kind, other: Kind)
    requires |s| <= MAX_STR_SCAN_LEN && IsConcrete(kind) && IsConcrete(other) && ScanOf(s) == kind
    requires |Converted(s, kind, other)| <= MAX_STR_SCAN_LEN
    ensures ScanOf(Converted(s, kind, other)) == other
    ensures CountLineBreaks(Converted(s, kind, other), other) == CountLineBreaks(s, kind) == |Breaks(s)|
    ensures Converted(Converted(s, kind, other), other, kind) == s
  {
    BreaksOfShort(s);
    BreaksAreConcrete(s);
    OneKindIsRepeat(BreaksOf(s), kind, NoBreaks);
    var n := |BreaksOf(s)|;
    var lines := ToLines(s, kind, n);
    var t := Join(lines, StrForLineBreaks(other));
    JoinConverts(lines, kind, other);
    JoinConverts(lines, other, kind);
    assert t == Converted(s, kind, other);
    BreaksOfShort(t);
    JoinedBreaks(lines, other);
    KindOfRepeat(other, n);
  }
}
