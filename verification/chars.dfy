/**
 Character classes used by the parser's regular expressions, and scanning
 over runs of whitespace.
 */
module Chars {

  /** The class `\s` of a Unicode-mode regular expression: the characters
      with the Unicode White_Space property. */
  predicate IsWhitespace(c: char) {
    || ('\t' <= c <= '\r')
    || c == ' '
    || c == '\U{85}'
    || c == '\U{A0}'
    || c == '\U{1680}'
    || ('\U{2000}' <= c <= '\U{200A}')
    || c == '\U{2028}'
    || c == '\U{2029}'
    || c == '\U{202F}'
    || c == '\U{205F}'
    || c == '\U{3000}'
  }

  /** The class `\w` that `\b` is defined from, restricted to ASCII. */
  predicate IsWordChar(c: char) {
    || ('0' <= c <= '9')
    || ('A' <= c <= 'Z')
    || ('a' <= c <= 'z')
    || c == '_'
  }

  /** Every character of `s[i..j]` is whitespace. */
  ghost predicate WhitespaceBetween(s: string, i: int, j: int)
    requires 0 <= i <= j <= |s|
  {
    forall m :: i <= m < j ==> IsWhitespace(s[m])
  }

  /** The end of the whitespace run starting at `i`, i.e. where a greedy
      `\s*` started at `i` stops. */
  function SkipWhitespace(s: string, i: nat): (j: nat)
    requires i <= |s|
    ensures i <= j <= |s|
    ensures WhitespaceBetween(s, i, j)
    ensures j < |s| ==> !IsWhitespace(s[j])
    decreases |s| - i
  {
    if i < |s| && IsWhitespace(s[i]) then SkipWhitespace(s, i + 1) else i
  }

  /** Starting the greedy scan anywhere inside one whitespace run gives the
      same end. */
  lemma SkipWhitespaceAcross(s: string, i: nat, j: nat)
    requires i <= j <= |s|
    requires WhitespaceBetween(s, i, j)
    ensures SkipWhitespace(s, i) == SkipWhitespace(s, j)
  {
  }

  /** Prepending characters to a string shifts the end of every whitespace
      run by the same amount. */
  lemma {:induction false} SkipWhitespaceShift(w: string, s: string, i: nat)
    requires i <= |s|
    ensures SkipWhitespace(w + s, |w| + i) == |w| + SkipWhitespace(s, i)
    decreases |s| - i
  {
    assert (w + s)[|w| + i ..] == s[i..];
    if i < |s| {
      assert (w + s)[|w| + i] == s[i];
      if IsWhitespace(s[i]) {
        SkipWhitespaceShift(w, s, i + 1);
      }
    }
  }
}
