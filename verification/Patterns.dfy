/** The regular expressions of the parsers, as far as they are used: runs of white space,
    words and digits, and texts compared without case.
 */
module Patterns {
  import opened Schema

  /** \s */
  predicate IsPatternSpace(c: char)
  {
    c == ' ' || '\t' <= c <= '\r'
  }

  function PatternSpaces(s: string): (n: nat)
    ensures n <= |s|
  {
    if s != [] && IsPatternSpace(s[0]) then 1 + PatternSpaces(s[1..]) else 0
  }

  /** \d */
  predicate IsDigit(c: char)
  {
    '0' <= c <= '9'
  }

  function Digits(s: string): (n: nat)
    ensures n <= |s|
  {
    if s != [] && IsDigit(s[0]) then 1 + Digits(s[1..]) else 0
  }

  /** \w */
  predicate IsWordChar(c: char)
  {
    IsDigit(c) || 'a' <= c <= 'z' || 'A' <= c <= 'Z' || c == '_'
  }

  function Word(s: string): (n: nat)
    ensures n <= |s|
  {
    if s != [] && IsWordChar(s[0]) then 1 + Word(s[1..]) else 0
  }

  const CURRENT_TIMESTAMP := "CURRENT_TIMESTAMP"

  /** Whether a text begins with another, without regard to case. */
  predicate BeginsWith(s: string, needle: string)
  {
    |needle| <= |s| && forall k | 0 <= k < |needle| :: ToLowerChar(s[k]) == ToLowerChar(needle[k])
  }

  lemma {:induction false} SpacesThen(spaces: string, rest: string)
    requires forall c | c in spaces :: IsPatternSpace(c)
    requires rest == [] || !IsPatternSpace(rest[0])
    ensures PatternSpaces(spaces + rest) == |spaces|
  {
    if spaces == [] {
      assert spaces + rest == rest;
    } else {
      SpacesThen(spaces[1..], rest);
      assert (spaces + rest)[1..] == spaces[1..] + rest;
    }
  }

  lemma SpacesAndDigits(c: char)
    ensures IsPatternSpace(c) <==> c in [' ', '\t', '\n', '\U{000B}', '\U{000C}', '\r']
    ensures IsDigit(c) <==> c in "0123456789"
  {
  }

  lemma WordCharacters(c: char)
    ensures IsWordChar(c)
       <==> c in "0123456789" || c in "abcdefghijklmnopqrstuvwxyz" || c in "ABCDEFGHIJKLMNOPQRSTUVWXYZ" || c == '_'
  {
  }
}
