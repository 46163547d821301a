/**
 The three kinds of pattern the parser builds from its two literals: the
 delimiter pattern `^\s*D\s*` (D the escaped delimiter), the star pattern
 `(?:[,\s]|^)\*(?:[,\s]|$)`, and the identifier pattern `\bI\b` (I the
 escaped identifier). Because both literals are escaped, each pattern is a
 plain string predicate. For each pattern there is a declarative statement
 of where it matches (`…At`) and a scanner proved to find such a place
 exactly when one exists.
 */
module Patterns {
  import opened Chars
  import opened Wrappers

  /** `p` occurs in `s` starting at index `k`. */
  predicate OccursAt(s: string, p: string, k: nat) {
    k + |p| <= |s| && s[k..k + |p|] == p
  }

  // ---------------------------------------------------------------------------
  // Delimiter pattern `^\s*D\s*`

  /** One way for `^\s*D` to match: only whitespace before index `k`, and the
      delimiter `d` at `k`. */
  ghost predicate DelimiterAt(line: string, d: string, k: int) {
    && 0 <= k
    && OccursAt(line, d, k)
    && WhitespaceBetween(line, 0, k)
  }

  /** The line is a directive line: the delimiter pattern matches it. */
  ghost predicate IsDirective(line: string, d: string) {
    exists k :: DelimiterAt(line, d, k)
  }

  /** Where the match of `^\s*D\s*` ends when `D` sits at `k`: the trailing
      `\s*` is greedy. */
  function MatchEnd(line: string, d: string, k: nat): (e: nat)
    requires OccursAt(line, d, k)
    ensures k + |d| <= e <= |line|
  {
    SkipWhitespace(line, k + |d|)
  }

  /** When the delimiter occurs at two indices both preceded only by
      whitespace, the later copy overlaps whitespace, so every character of
      the delimiter is whitespace. */
  lemma {:induction false} RepeatedDelimiterIsWhitespace(line: string, d: string, k1: nat, k2: nat, j: nat)
    requires k1 < k2
    requires DelimiterAt(line, d, k1) && DelimiterAt(line, d, k2)
    requires j < |d|
    ensures IsWhitespace(d[j])
    decreases j
  {
    assert line[k1..k1 + |d|][j] == d[j];
    if k1 + j >= k2 {
      var j' := j - (k2 - k1);
      assert line[k2..k2 + |d|][j'] == d[j'];
      RepeatedDelimiterIsWhitespace(line, d, k1, k2, j');
    }
  }

  /** The end of the delimiter match does not depend on which whitespace
      prefix the leading `\s*` takes: every way to match ends at the same
      index. */
  lemma DelimiterEndUnique(line: string, d: string, k1: nat, k2: nat)
    requires DelimiterAt(line, d, k1) && DelimiterAt(line, d, k2)
    ensures MatchEnd(line, d, k1) == MatchEnd(line, d, k2)
  {
    if k1 < k2 {
      WhitespaceUpToSecondCopy(line, d, k1, k2);
      SkipWhitespaceAcross(line, k1 + |d|, k2 + |d|);
    } else if k2 < k1 {
      WhitespaceUpToSecondCopy(line, d, k2, k1);
      SkipWhitespaceAcross(line, k2 + |d|, k1 + |d|);
    }
  }

  lemma WhitespaceUpToSecondCopy(line: string, d: string, k1: nat, k2: nat)
    requires k1 < k2
    requires DelimiterAt(line, d, k1) && DelimiterAt(line, d, k2)
    ensures WhitespaceBetween(line, k1 + |d|, k2 + |d|)
  {
    forall m | k1 + |d| <= m < k2 + |d|
      ensures IsWhitespace(line[m])
    {
      if m >= k2 {
        RepeatedDelimiterIsWhitespace(line, d, k1, k2, m - k2);
        assert line[k2..k2 + |d|][m - k2] == line[m];
      }
    }
  }

  /** Search for the delimiter from index `k` on, stepping over leading
      whitespace. */
  function MatchDelimiterFrom(line: string, d: string, k: nat): (r: Option<nat>)
    requires k <= |line|
    requires WhitespaceBetween(line, 0, k)
    ensures r.Some? <==> exists k' :: k <= k' && DelimiterAt(line, d, k')
    ensures forall k' :: k <= k' && DelimiterAt(line, d, k') ==> r == Some(MatchEnd(line, d, k'))
    decreases |line| - k
  {
    if OccursAt(line, d, k) then
      assert DelimiterAt(line, d, k);
      assert forall k' :: DelimiterAt(line, d, k') ==> MatchEnd(line, d, k') == MatchEnd(line, d, k) by {
        forall k' | DelimiterAt(line, d, k') {
          DelimiterEndUnique(line, d, k, k');
        }
      }
      Some(MatchEnd(line, d, k))
    else if k < |line| && IsWhitespace(line[k]) then
      MatchDelimiterFrom(line, d, k + 1)
    else
      None
  }

  /** `Regex::find` with the delimiter pattern: `None` when the line does not
      match, otherwise the end of the match. */
  function MatchDelimiter(line: string, d: string): (r: Option<nat>)
    ensures r.Some? <==> IsDirective(line, d)
    ensures forall k :: DelimiterAt(line, d, k) ==> r == Some(MatchEnd(line, d, k))
  {
    MatchDelimiterFrom(line, d, 0)
  }

  // ---------------------------------------------------------------------------
  // Star pattern `(?:[,\s]|^)\*(?:[,\s]|$)`

  /** A character of `[,\s]`. */
  predicate IsSeparator(c: char) {
    c == ',' || IsWhitespace(c)
  }

  /** A `*` at index `i` that stands alone: the start or a separator before
      it, the end or a separator after it. */
  predicate StarTokenAt(s: string, i: nat) {
    && i < |s|
    && s[i] == '*'
    && (i == 0 || IsSeparator(s[i - 1]))
    && (i + 1 == |s| || IsSeparator(s[i + 1]))
  }

  /** The star pattern matches somewhere in `s`. */
  ghost predicate HasStarToken(s: string) {
    exists i :: StarTokenAt(s, i)
  }

  function FindStarFrom(s: string, i: nat): (found: bool)
    requires i <= |s|
    ensures found <==> exists j :: i <= j && StarTokenAt(s, j)
    decreases |s| - i
  {
    if i == |s| then false
    else StarTokenAt(s, i) || FindStarFrom(s, i + 1)
  }

  /** `RegexSet::matches` for the star pattern. */
  function FindStar(s: string): (found: bool)
    ensures found <==> HasStarToken(s)
  {
    FindStarFrom(s, 0)
  }

  // ---------------------------------------------------------------------------
  // Identifier pattern `\bI\b`

  /** `\b` at index `p`: the characters on the two sides of `p` differ in
      being word characters, with the ends of the string counting as
      non-word. */
  predicate WordBoundary(s: string, p: nat) {
    p <= |s| && ((0 < p && IsWordChar(s[p - 1])) != (p < |s| && IsWordChar(s[p])))
  }

  /** The identifier occurs at `i` with a word boundary on each side. */
  predicate IdentWordAt(s: string, ident: string, i: nat) {
    && OccursAt(s, ident, i)
    && WordBoundary(s, i)
    && WordBoundary(s, i + |ident|)
  }

  /** The identifier pattern matches somewhere in `s`. */
  ghost predicate HasIdentWord(s: string, ident: string) {
    exists i :: IdentWordAt(s, ident, i)
  }

  function FindIdentFrom(s: string, ident: string, i: nat): (found: bool)
    ensures found <==> exists j :: i <= j && IdentWordAt(s, ident, j)
    decreases |s| - i
  {
    if i + |ident| > |s| then false
    else IdentWordAt(s, ident, i) || FindIdentFrom(s, ident, i + 1)
  }

  /** `RegexSet::matches` for the identifier pattern. */
  function FindIdent(s: string, ident: string): (found: bool)
    ensures found <==> HasIdentWord(s, ident)
  {
    FindIdentFrom(s, ident, 0)
  }
}
