/**
 Classification of one input line (`Parser::discriminate`). A line is
 content unless the delimiter pattern matches it; the text after the match
 is then tested against the three case patterns in a fixed priority order.
 */
module Classify {
  import opened Chars
  import opened Wrappers
  import opened Patterns

  /** What a line asks the selection state machine to do. */
  datatype LineAction = EnterSpecific | EnterIgnore | EnterOtherwise | EnterGeneral | Process

  /** A parser built from an identifier and a delimiter (`Parser::new`).
      Both are kept as literals: the patterns they stand for are the
      predicates of `Patterns`. */
  datatype Parser = Parser(ident: string, delimiter: string)

  /** The case a directive selects, from the text after the delimiter match:
      the empty pattern `^$` first, then the star, then the identifier. The
      star and identifier patterns can both match; the star wins. */
  function ClassifyRemainder(p: Parser, rest: string): (a: LineAction)
    ensures a != Process
    ensures a == EnterGeneral <==> rest == []
    ensures a == EnterOtherwise <==> rest != [] && HasStarToken(rest)
    ensures a == EnterSpecific <==> rest != [] && !HasStarToken(rest) && HasIdentWord(rest, p.ident)
    ensures a == EnterIgnore <==> rest != [] && !HasStarToken(rest) && !HasIdentWord(rest, p.ident)
  {
    if rest == [] then EnterGeneral
    else if FindStar(rest) then EnterOtherwise
    else if FindIdent(rest, p.ident) then EnterSpecific
    else EnterIgnore
  }

  /** The text after the delimiter match, for a delimiter found at `k`. */
  function Remainder(line: string, d: string, k: nat): (rest: string)
    requires OccursAt(line, d, k)
    ensures |rest| <= |line| - k - |d|
    ensures rest == [] || !IsWhitespace(rest[0])
  {
    line[MatchEnd(line, d, k)..]
  }

  /** `Parser::discriminate`: a line is `Process` exactly when the delimiter
      pattern does not match it. */
  function Discriminate(p: Parser, line: string): (a: LineAction)
    ensures a == Process <==> !IsDirective(line, p.delimiter)
  {
    match MatchDelimiter(line, p.delimiter)
    case None => Process
    case Some(e) => ClassifyRemainder(p, line[e..])
  }

  /** A directive gets the case its remainder selects, whichever whitespace
      prefix the match is taken to use. */
  lemma DiscriminateSpec(p: Parser, line: string)
    ensures forall k :: DelimiterAt(line, p.delimiter, k) ==>
              Discriminate(p, line) == ClassifyRemainder(p, Remainder(line, p.delimiter, k))
  {
    if IsDirective(line, p.delimiter) {
      var k :| DelimiterAt(line, p.delimiter, k);
      assert MatchDelimiter(line, p.delimiter) == Some(MatchEnd(line, p.delimiter, k));
    }
  }

  // ---------------------------------------------------------------------------
  // Consequences for whole lines

  /** The bare delimiter, with any whitespace around it, is the general
      marker. */
  lemma BareDelimiterIsGeneral(p: Parser, before: string, after: string)
    requires forall m :: 0 <= m < |before| ==> IsWhitespace(before[m])
    requires forall m :: 0 <= m < |after| ==> IsWhitespace(after[m])
    ensures Discriminate(p, before + p.delimiter + after) == EnterGeneral
  {
    var line := before + p.delimiter + after;
    var k := |before|;
    assert line[k..k + |p.delimiter|] == p.delimiter;
    assert DelimiterAt(line, p.delimiter, k);
    assert forall m :: k + |p.delimiter| <= m < |line| ==> line[m] == after[m - k - |p.delimiter|];
    DiscriminateSpec(p, line);
  }

  /** A line that starts with a character that is neither whitespace nor the
      delimiter's first character is content: the delimiter is recognised
      only after leading whitespace. */
  lemma LeadingTextIsContent(p: Parser, c: char, rest: string)
    requires !IsWhitespace(c)
    requires p.delimiter != [] && p.delimiter[0] != c
    ensures Discriminate(p, [c] + rest) == Process
  {
    var line := [c] + rest;
    forall k: nat | OccursAt(line, p.delimiter, k)
      ensures !DelimiterAt(line, p.delimiter, k)
    {
      assert line[0] == c;
      assert line[k..k + |p.delimiter|][0] == p.delimiter[0];
    }
  }

  /** When the delimiter is empty or does not begin with whitespace,
      indenting a line with whitespace does not change its classification. */
  lemma IndentationIrrelevant(p: Parser, indent: string, line: string)
    requires p.delimiter == [] || !IsWhitespace(p.delimiter[0])
    requires forall m :: 0 <= m < |indent| ==> IsWhitespace(indent[m])
    ensures Discriminate(p, indent + line) == Discriminate(p, line)
  {
    if p.delimiter == [] {
      IndentUnderEmptyDelimiter(p.delimiter, indent, line);
      DiscriminateSpec(p, indent + line);
      DiscriminateSpec(p, line);
    } else if IsDirective(line, p.delimiter) {
      var k :| DelimiterAt(line, p.delimiter, k);
      IndentKeepsDirective(p.delimiter, indent, line, k);
    } else {
      IndentAddsNoDirective(p.delimiter, indent, line);
    }
  }

  lemma IndentUnderEmptyDelimiter(d: string, indent: string, line: string)
    requires d == []
    requires forall m :: 0 <= m < |indent| ==> IsWhitespace(indent[m])
    ensures DelimiterAt(indent + line, d, 0) && DelimiterAt(line, d, 0)
    ensures Remainder(indent + line, d, 0) == Remainder(line, d, 0)
  {
    var full := indent + line;
    forall m | 0 <= m < |indent|
      ensures IsWhitespace(full[m])
    {
      assert full[m] == indent[m];
    }
    SkipWhitespaceAcross(full, 0, |indent|);
    SkipWhitespaceShift(indent, line, 0);
    var e := SkipWhitespace(line, 0);
    assert full[|indent| + e..] == line[e..];
  }

  lemma IndentKeepsDirective(d: string, indent: string, line: string, k: nat)
    requires forall m :: 0 <= m < |indent| ==> IsWhitespace(indent[m])
    requires DelimiterAt(line, d, k)
    ensures DelimiterAt(indent + line, d, |indent| + k)
    ensures Remainder(indent + line, d, |indent| + k) == Remainder(line, d, k)
  {
    var full := indent + line;
    assert full[|indent| + k..|indent| + k + |d|] == line[k..k + |d|];
    forall m | 0 <= m < |indent| + k
      ensures IsWhitespace(full[m])
    {
      if m >= |indent| {
        assert full[m] == line[m - |indent|];
      }
    }
    SkipWhitespaceShift(indent, line, k + |d|);
  }

  lemma IndentAddsNoDirective(d: string, indent: string, line: string)
    requires d != [] && !IsWhitespace(d[0])
    requires forall m :: 0 <= m < |indent| ==> IsWhitespace(indent[m])
    requires !IsDirective(line, d)
    ensures !IsDirective(indent + line, d)
  {
    var full := indent + line;
    forall k: nat | OccursAt(full, d, k) && WhitespaceBetween(full, 0, k)
      ensures k >= |indent| && DelimiterAt(line, d, k - |indent|)
    {
      assert full[k..k + |d|][0] == d[0];
      var k' := k - |indent|;
      assert line[k'..k' + |d|] == full[k..k + |d|];
      forall m | 0 <= m < k'
        ensures IsWhitespace(line[m])
      {
        assert line[m] == full[m + |indent|];
      }
    }
  }

  /** With an empty delimiter every line is a directive. */
  lemma EmptyDelimiterMatchesEveryLine(p: Parser, line: string)
    requires p.delimiter == []
    ensures Discriminate(p, line) != Process
  {
    assert DelimiterAt(line, p.delimiter, 0);
  }
}
