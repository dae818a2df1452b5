/** The few Qt string operations the modelled code relies on. */
module QtStrings {

  datatype Option<+T> = None | Some(value: T)

  /** A list put before another one. */
  function Prepend<T(==)>(out: seq<T>, rest: seq<T>): seq<T>
  {
    if out == [] then rest else out + rest
  }

  lemma AppendOne<T>(list: seq<T>, x: T, rest: seq<T>)
    ensures list + ([x] + rest) == (list + [x]) + rest
  {
  }

  lemma PrependAppends<T>(list: seq<T>, out: seq<T>, rest: seq<T>)
    ensures list + Prepend(out, rest) == (list + out) + rest
  {
    if out == [] {
      assert list + out == list;
    }
  }

  lemma Regroup<T>(a: seq<T>, b: seq<T>, c: seq<T>)
    ensures (a + b) + c == a + (b + c)
  {
  }

  lemma NothingBehind<T>(list: seq<T>)
    ensures list + [] == list
  {
  }

  lemma NothingBefore<T>(rest: seq<T>)
    ensures [] + rest == rest
  {
  }

  const LF := '\n'
  const CR := '\r'

  // QChar::Null, the value the scanners use for "no next character".
  const NUL := '\0'

  /** QChar::isSpace. */
  predicate IsSpace(c: char)
  {
    || c == ' '
    || '\t' <= c <= '\r'
    || c == '\U{0085}' || c == '\U{00A0}' || c == '\U{1680}'
    || '\U{2000}' <= c <= '\U{200A}'
    || c == '\U{2028}' || c == '\U{2029}' || c == '\U{202F}'
    || c == '\U{205F}' || c == '\U{3000}'
  }

  /** The characters with the property White_Space of the Unicode Character Database. */
  const WHITE_SPACE := [
    '\U{0009}', '\U{000A}', '\U{000B}', '\U{000C}', '\U{000D}', '\U{0020}', '\U{0085}', '\U{00A0}', '\U{1680}',
    '\U{2000}', '\U{2001}', '\U{2002}', '\U{2003}', '\U{2004}', '\U{2005}', '\U{2006}', '\U{2007}', '\U{2008}',
    '\U{2009}', '\U{200A}', '\U{2028}', '\U{2029}', '\U{202F}', '\U{205F}', '\U{3000}']

  lemma SpacesAreThese(c: char)
    ensures IsSpace(c) <==> c in WHITE_SPACE
  {
  }

  /** The first index from i on that holds no white space, or hi. */
  function SkipSpaces(s: string, i: nat, hi: nat): (r: nat)
    requires i <= hi <= |s|
    ensures i <= r <= hi
    decreases hi - i
  {
    if i < hi && IsSpace(s[i]) then SkipSpaces(s, i + 1, hi) else i
  }

  /** The end of the text between lo and hi without its trailing white space. */
  function TrimEnd(s: string, lo: nat, hi: nat): (e: nat)
    requires lo <= hi <= |s|
    ensures lo <= e <= hi
  {
    if lo < hi && IsSpace(s[hi - 1]) then TrimEnd(s, lo, hi - 1) else hi
  }

  lemma {:induction false} SkipSpacesMeans(s: string, i: nat, hi: nat)
    requires i <= hi <= |s|
    ensures var r := SkipSpaces(s, i, hi); r < hi ==> !IsSpace(s[r])
    ensures forall k | i <= k < SkipSpaces(s, i, hi) :: IsSpace(s[k])
    decreases hi - i
  {
    if i < hi && IsSpace(s[i]) {
      SkipSpacesMeans(s, i + 1, hi);
    }
  }

  lemma {:induction false} TrimEndMeans(s: string, lo: nat, hi: nat)
    requires lo <= hi <= |s|
    ensures var e := TrimEnd(s, lo, hi); lo < e ==> !IsSpace(s[e - 1])
    ensures forall k | TrimEnd(s, lo, hi) <= k < hi :: IsSpace(s[k])
  {
    if lo < hi && IsSpace(s[hi - 1]) {
      TrimEndMeans(s, lo, hi - 1);
    }
  }

  /** QString::trimmed. */
  function Trimmed(s: string): string
  {
    var a := SkipSpaces(s, 0, |s|); s[a..TrimEnd(s, a, |s|)]
  }

  // A QStringRef: a view of the characters [lo, hi) of a text.
  datatype Ref = Ref(lo: nat, hi: nat)

  /** QString::midRef: a negative or too large n reaches the end of the text, and n
      counts from a negative position. */
  function MidRef(len: nat, position: int, n: int): (r: Ref)
    ensures r.lo <= r.hi <= len
  {
    if position > len then Ref(0, 0)
    else
      Ref(if position < 0 then 0 else position,
          if n < 0 || n + position >= len then len
          else if n + position <= 0 then 0
          else n + position)
  }

  /** Comparing a QStringRef with a text. */
  predicate RefEquals(s: string, r: Ref, t: string)
    requires r.lo <= r.hi <= |s|
  {
    r.hi - r.lo == |t| && forall k | 0 <= k < |t| :: s[r.lo + k] == t[k]
  }

  /** QStringRef::trimmed. */
  function TrimmedRef(s: string, q: Ref): (r: Ref)
    requires q.lo <= q.hi <= |s|
    ensures q.lo <= r.lo <= r.hi <= q.hi
  {
    var a := SkipSpaces(s, q.lo, q.hi); Ref(a, TrimEnd(s, a, q.hi))
  }

  /** The character after index i, or NUL at the end of the text. */
  function NextChar(s: string, i: int): char
    requires 0 <= i < |s|
  {
    if i + 1 < |s| then s[i + 1] else NUL
  }

  /** Trimming leaves out only white space, and stops at other characters. */
  lemma TrimmedRefMeans(s: string, q: Ref)
    requires q.lo <= q.hi <= |s|
    ensures var t := TrimmedRef(s, q);
            && (forall k | q.lo <= k < q.hi && !(t.lo <= k < t.hi) :: IsSpace(s[k]))
            && (t.lo < t.hi ==> !IsSpace(s[t.lo]) && !IsSpace(s[t.hi - 1]))
  {
    SkipSpacesMeans(s, q.lo, q.hi);
    TrimEndMeans(s, SkipSpaces(s, q.lo, q.hi), q.hi);
  }

  /** A text is trimmed when its outer characters are not white space. */
  ghost predicate IsTrimmed(s: string)
  {
    s != [] && !IsSpace(s[0]) && !IsSpace(s[|s| - 1])
  }

  lemma TrimmedFixpoint(s: string)
    requires IsTrimmed(s)
    ensures Trimmed(s) == s
  {
  }
}
