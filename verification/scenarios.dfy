/**
 The behaviour pinned down by the unit tests `parsing1` to `parsing5` of the
 parser, with delimiter `>>>` and identifier `thisone`, and a few single
 lines that show where the rules meet.
 */
module Scenarios {
  import opened Chars
  import opened Patterns
  import opened Classify
  import opened Selection
  import opened Blocks
  import Output

  function TestParser(): Parser { Parser("thisone", ">>>") }

  // ---------------------------------------------------------------------------
  // Classifying a directive from a witness

  /** A directive whose remainder has no `*` but has the identifier as a
      word is a specific marker. */
  lemma SpecificByWitness(p: Parser, line: string, k: nat, i: nat)
    requires DelimiterAt(line, p.delimiter, k)
    requires '*' !in Remainder(line, p.delimiter, k)
    requires IdentWordAt(Remainder(line, p.delimiter, k), p.ident, i)
    ensures Discriminate(p, line) == EnterSpecific
  {
    DiscriminateSpec(p, line);
  }

  /** A directive whose remainder has a standalone `*` is the default
      marker, whatever else the remainder holds. */
  lemma OtherwiseByWitness(p: Parser, line: string, k: nat, i: nat)
    requires DelimiterAt(line, p.delimiter, k)
    requires StarTokenAt(Remainder(line, p.delimiter, k), i)
    ensures Discriminate(p, line) == EnterOtherwise
  {
    DiscriminateSpec(p, line);
  }

  /** A directive whose remainder is not empty and has neither pattern is
      an unrelated case label. */
  lemma IgnoreByAbsence(p: Parser, line: string, k: nat)
    requires DelimiterAt(line, p.delimiter, k)
    requires Remainder(line, p.delimiter, k) != []
    requires '*' !in Remainder(line, p.delimiter, k)
    requires !FindIdent(Remainder(line, p.delimiter, k), p.ident)
    ensures Discriminate(p, line) == EnterIgnore
  {
    DiscriminateSpec(p, line);
  }

  // ---------------------------------------------------------------------------
  // The lines of the tests

  /** The content lines of the tests. */
  lemma ContentLinesOfTests()
    ensures Discriminate(TestParser(), "1") == Process
    ensures Discriminate(TestParser(), "2") == Process
    ensures Discriminate(TestParser(), "3") == Process
    ensures Discriminate(TestParser(), "4") == Process
    ensures Discriminate(TestParser(), "XXX") == Process
  {
    assert TestParser().delimiter[0] == '>';
    LeadingTextIsContent(TestParser(), '1', "");
    LeadingTextIsContent(TestParser(), '2', "");
    LeadingTextIsContent(TestParser(), '3', "");
    LeadingTextIsContent(TestParser(), '4', "");
    LeadingTextIsContent(TestParser(), 'X', "XX");
  }

  /** The delimiter after other text is not recognised. */
  lemma DelimiterAfterTextIsContent()
    ensures Discriminate(TestParser(), "XXX>>>   ") == Process
  {
    assert TestParser().delimiter[0] == '>';
    LeadingTextIsContent(TestParser(), 'X', "XX>>>   ");
    assert ['X'] + "XX>>>   " == "XXX>>>   ";
  }

  lemma ThisOneIsSpecific()
    ensures Discriminate(TestParser(), ">>> thisone") == EnterSpecific
  {
    var line := ">>> thisone";
    var rest := "thisone";
    assert DelimiterAt(line, ">>>", 0) by {
      assert line[0..3] == ">>>";
    }
    assert Remainder(line, ">>>", 0) == rest by {
      assert IsWhitespace(line[3]) && !IsWhitespace(line[4]);
      assert MatchEnd(line, ">>>", 0) == 4;
    }
    assert '*' !in rest;
    assert IdentWordAt(rest, "thisone", 0) by {
      assert rest[0..7] == "thisone";
    }
    SpecificByWitness(TestParser(), line, 0, 0);
  }

  lemma ThisOneUnspacedIsSpecific()
    ensures Discriminate(TestParser(), ">>>thisone") == EnterSpecific
  {
    var line := ">>>thisone";
    var rest := "thisone";
    assert DelimiterAt(line, ">>>", 0) by {
      assert line[0..3] == ">>>";
    }
    assert Remainder(line, ">>>", 0) == rest by {
      assert !IsWhitespace(line[3]);
      assert MatchEnd(line, ">>>", 0) == 3;
    }
    assert '*' !in rest;
    assert IdentWordAt(rest, "thisone", 0) by {
      assert rest[0..7] == "thisone";
    }
    SpecificByWitness(TestParser(), line, 0, 0);
  }

  lemma OtherIsIgnored()
    ensures Discriminate(TestParser(), ">>> other") == EnterIgnore
  {
    var line := ">>> other";
    var rest := "other";
    assert DelimiterAt(line, ">>>", 0) by {
      assert line[0..3] == ">>>";
    }
    assert Remainder(line, ">>>", 0) == rest by {
      assert IsWhitespace(line[3]) && !IsWhitespace(line[4]);
      assert MatchEnd(line, ">>>", 0) == 4;
    }
    assert '*' !in rest;
    assert !FindIdent(rest, "thisone");
    IgnoreByAbsence(TestParser(), line, 0);
  }

  /** Leading tabs before the delimiter. */
  lemma IndentedOtherIsIgnored()
    ensures Discriminate(TestParser(), "\t\t>>>other") == EnterIgnore
  {
    var line := "\t\t>>>other";
    var rest := "other";
    assert DelimiterAt(line, ">>>", 2) by {
      assert line[2..5] == ">>>";
      assert IsWhitespace(line[0]) && IsWhitespace(line[1]);
    }
    assert Remainder(line, ">>>", 2) == rest by {
      assert !IsWhitespace(line[5]);
      assert MatchEnd(line, ">>>", 2) == 5;
    }
    assert '*' !in rest;
    assert !FindIdent(rest, "thisone");
    IgnoreByAbsence(TestParser(), line, 2);
  }

  lemma StarIsOtherwise()
    ensures Discriminate(TestParser(), ">>> *") == EnterOtherwise
  {
    var line := ">>> *";
    assert DelimiterAt(line, ">>>", 0) by {
      assert line[0..3] == ">>>";
    }
    assert Remainder(line, ">>>", 0) == "*" by {
      assert IsWhitespace(line[3]) && !IsWhitespace(line[4]);
      assert MatchEnd(line, ">>>", 0) == 4;
    }
    assert StarTokenAt("*", 0);
    OtherwiseByWitness(TestParser(), line, 0, 0);
  }

  /** Leading spaces before the delimiter, no space after it. */
  lemma IndentedStarIsOtherwise()
    ensures Discriminate(TestParser(), "        >>>*") == EnterOtherwise
  {
    var line := "        >>>*";
    assert DelimiterAt(line, ">>>", 8) by {
      assert line[8..11] == ">>>";
      assert forall m :: 0 <= m < 8 ==> line[m] == ' ';
    }
    assert Remainder(line, ">>>", 8) == "*" by {
      assert !IsWhitespace(line[11]);
      assert MatchEnd(line, ">>>", 8) == 11;
    }
    assert StarTokenAt("*", 0);
    OtherwiseByWitness(TestParser(), line, 8, 0);
  }

  lemma BareIsGeneral()
    ensures Discriminate(TestParser(), ">>>") == EnterGeneral
  {
    BareDelimiterIsGeneral(TestParser(), "", "");
    assert "" + TestParser().delimiter + "" == ">>>";
  }

  /** The list line splits into the delimiter and the list. */
  lemma ListLineParts(line: string)
    requires line == ">>> another, thisone, andanother"
    ensures DelimiterAt(line, ">>>", 0)
    ensures Remainder(line, ">>>", 0) == "another, thisone, andanother"
  {
    assert line[0..3] == ">>>";
    assert IsWhitespace(line[3]) && !IsWhitespace(line[4]);
    assert MatchEnd(line, ">>>", 0) == 4;
  }

  /** The list has no `*` and names `thisone` as a whole word. */
  lemma ListNamesThisOne(rest: string)
    requires rest == "another, thisone, andanother"
    ensures '*' !in rest
    ensures IdentWordAt(rest, "thisone", 9)
  {
    assert rest[9..16] == "thisone";
  }

  /** The identifier is found as one name in a comma-separated list. */
  lemma IdentInListIsSpecific()
    ensures Discriminate(TestParser(), ">>> another, thisone, andanother") == EnterSpecific
  {
    var line := ">>> another, thisone, andanother";
    ListLineParts(line);
    ListNamesThisOne("another, thisone, andanother");
    SpecificByWitness(TestParser(), line, 0, 9);
  }

  /** The star and the identifier can both match one label; the star wins. */
  lemma StarBeatsIdent()
    ensures HasStarToken("* thisone") && HasIdentWord("* thisone", "thisone")
    ensures Discriminate(TestParser(), ">>> * thisone") == EnterOtherwise
  {
    assert StarTokenAt("* thisone", 0);
    assert IdentWordAt("* thisone", "thisone", 2);
    var line := ">>> * thisone";
    assert OccursAt(line, ">>>", 0);
    assert IsWhitespace(line[3]) && !IsWhitespace(line[4]);
    assert Remainder(line, ">>>", 0) == "* thisone";
    OtherwiseByWitness(TestParser(), line, 0, 0);
  }

  /** `\b` treats `-` as a boundary, so identifier `web` selects a block
      labelled `web-01`. */
  lemma HyphenatedLabelMatchesPrefix()
    ensures Discriminate(Parser("web", ">>>"), ">>> web-01") == EnterSpecific
  {
    var line := ">>> web-01";
    assert OccursAt(line, ">>>", 0);
    assert IsWhitespace(line[3]) && !IsWhitespace(line[4]);
    var rest := Remainder(line, ">>>", 0);
    assert rest == "web-01";
    assert IdentWordAt(rest, "web", 0);
    SpecificByWitness(Parser("web", ">>>"), line, 0, 0);
  }

  /** A longer word that contains the identifier does not select it. */
  lemma IdentInsideWordIsIgnored()
    ensures Discriminate(TestParser(), ">>> notthisone") == EnterIgnore
  {
    var line := ">>> notthisone";
    var rest := "notthisone";
    assert DelimiterAt(line, ">>>", 0) by {
      assert line[0..3] == ">>>";
    }
    assert Remainder(line, ">>>", 0) == rest by {
      assert IsWhitespace(line[3]) && !IsWhitespace(line[4]);
      assert MatchEnd(line, ">>>", 0) == 4;
    }
    assert '*' !in rest;
    assert !FindIdent(rest, "thisone") by {
      assert !WordBoundary(rest, 3);
      assert !IdentWordAt(rest, "thisone", 0) && !IdentWordAt(rest, "thisone", 1) && !IdentWordAt(rest, "thisone", 2);
      assert FindIdentFrom(rest, "thisone", 4) == false;
    }
    IgnoreByAbsence(TestParser(), line, 0);
  }

  // ---------------------------------------------------------------------------
  // The shapes of the tests, for any lines of the right kinds

  /** Text, a specific case, its text, an unrelated case and its text: the
      unrelated block is dropped. */
  lemma SpecificThenIgnored(kind: Classifier, a: string, s: string, b: string, o: string, x: string)
    requires kind(a) == Process && kind(b) == Process && kind(x) == Process
    requires kind(s) == EnterSpecific
    requires kind(o) == EnterIgnore
    ensures RunFrom(kind, Start, [a, s, b, o, x]) == [a, b]
  {
    var front := [a, s, b];
    assert front + [o] + [x] == [a, s, b, o, x];
    assert RunFrom(kind, Start, front) == [a, b] by {
      assert [a] + [s] + [b] == front;
      PassThrough(kind, [a]);
      SpecificBlockKept(kind, [a], s, [b]);
    }
    IgnoreBlockDropped(kind, front, o, [x]);
  }

  /** Text, an unrelated case over two lines, a specific case and its
      text. */
  lemma IgnoredThenSpecific(kind: Classifier, a: string, o: string, t: string, x: string, s: string, b: string)
    requires kind(a) == Process && kind(t) == Process && kind(x) == Process && kind(b) == Process
    requires kind(o) == EnterIgnore
    requires kind(s) == EnterSpecific
    ensures RunFrom(kind, Start, [a, o, t, x, s, b]) == [a, b]
  {
    var front := [a, o, t, x];
    assert front + [s] + [b] == [a, o, t, x, s, b];
    assert RunFrom(kind, Start, front) == [a] by {
      assert [a] + [o] + [t, x] == front;
      PassThrough(kind, [a]);
      IgnoreBlockDropped(kind, [a], o, [t, x]);
    }
    SpecificBlockKept(kind, front, s, [b]);
  }

  /** Text, an unrelated case and its text, a `*` case and its text: with no
      specific case before it, the `*` block is kept. */
  lemma IgnoredThenStar(kind: Classifier, a: string, o: string, x: string, star: string, b: string)
    requires kind(a) == Process && kind(x) == Process && kind(b) == Process
    requires kind(o) == EnterIgnore
    requires kind(star) == EnterOtherwise
    ensures RunFrom(kind, Start, [a, o, x, star, b]) == [a, b]
  {
    var front := [a, o, x];
    assert front + [star] + [b] == [a, o, x, star, b];
    assert RunFrom(kind, Start, front) == [a] by {
      assert [a] + [o] + [x] == front;
      PassThrough(kind, [a]);
      IgnoreBlockDropped(kind, [a], o, [x]);
    }
    assert forall i :: 0 <= i < |front| ==> kind(front[i]) != EnterSpecific;
    OtherwiseWithoutSpecificKept(kind, front, star, [b]);
  }

  /** Text, a `*` case and its text, at the start of a switch. */
  lemma StarFirst(kind: Classifier, c: string, star: string, d: string)
    requires kind(c) == Process && kind(d) == Process
    requires kind(star) == EnterOtherwise
    ensures RunFrom(kind, Start, [c, star, d]) == [c, d]
  {
    assert [c] + [star] + [d] == [c, star, d];
    PassThrough(kind, [c]);
    OtherwiseWithoutSpecificKept(kind, [c], star, [d]);
  }

  /** A specific case, an unrelated case and the closing general marker:
      the specific block and the text around the switch are kept. */
  lemma SpecificThenIgnoredSwitch(
    kind: Classifier, a: string, s: string, b: string, o: string, x: string, g: string, c: string)
    requires kind(a) == Process && kind(b) == Process
    requires kind(x) == Process && kind(c) == Process
    requires kind(s) == EnterSpecific
    requires kind(o) == EnterIgnore
    requires kind(g) == EnterGeneral
    ensures RunFrom(kind, Start, [a, s, b, o, x, g, c]) == [a, b, c]
  {
    SpecificThenIgnored(kind, a, s, b, o, x);
    GeneralResets(kind, [a, s, b, o, x], g, [c]);
    assert [a, s, b, o, x] + [g] + [c] == [a, s, b, o, x, g, c];
    PassThrough(kind, [c]);
  }

  /** As above with a `*` case after the unrelated one: dropped, because the
      specific case came first. */
  lemma SpecificThenStarSwitch(
    kind: Classifier, a: string, s: string, b: string, o: string, x: string, star: string, y: string,
    g: string, c: string)
    requires kind(a) == Process && kind(b) == Process
    requires kind(x) == Process && kind(y) == Process
    requires kind(c) == Process
    requires kind(s) == EnterSpecific
    requires kind(o) == EnterIgnore
    requires kind(star) == EnterOtherwise
    requires kind(g) == EnterGeneral
    ensures RunFrom(kind, Start, [a, s, b, o, x, star, y, g, c]) == [a, b, c]
  {
    assert RunFrom(kind, Start, [a, s, b, o, x, star, y]) == [a, b] by {
      SpecificThenIgnored(kind, a, s, b, o, x);
      OtherwiseAfterSpecificDropped(kind, [a], s, [b, o, x], star, [y]);
      assert [a] + [s] + [b, o, x] == [a, s, b, o, x];
      assert [a, s, b, o, x] + [star] + [y] == [a, s, b, o, x, star, y];
    }
    GeneralResets(kind, [a, s, b, o, x, star, y], g, [c]);
    assert [a, s, b, o, x, star, y] + [g] + [c] == [a, s, b, o, x, star, y, g, c];
    PassThrough(kind, [c]);
  }

  /** An unrelated case then a `*` case: the `*` block is kept as the
      default. */
  lemma IgnoredThenStarSwitch(
    kind: Classifier, a: string, o: string, x: string, star: string, b: string, g: string, c: string)
    requires kind(a) == Process && kind(x) == Process
    requires kind(b) == Process && kind(c) == Process
    requires kind(o) == EnterIgnore
    requires kind(star) == EnterOtherwise
    requires kind(g) == EnterGeneral
    ensures RunFrom(kind, Start, [a, o, x, star, b, g, c]) == [a, b, c]
  {
    IgnoredThenStar(kind, a, o, x, star, b);
    GeneralResets(kind, [a, o, x, star, b], g, [c]);
    assert [a, o, x, star, b] + [g] + [c] == [a, o, x, star, b, g, c];
    PassThrough(kind, [c]);
  }

  /** An unrelated case over two lines, a specific case, the general marker,
      then a `*` case in a new switch with no specific case: kept. */
  lemma TwoSwitches(
    kind: Classifier, a: string, o: string, t: string, x: string, s: string, b: string, g: string,
    c: string, star: string, d: string)
    requires kind(a) == Process && kind(t) == Process
    requires kind(x) == Process && kind(b) == Process
    requires kind(c) == Process && kind(d) == Process
    requires kind(o) == EnterIgnore
    requires kind(s) == EnterSpecific
    requires kind(g) == EnterGeneral
    requires kind(star) == EnterOtherwise
    ensures RunFrom(kind, Start, [a, o, t, x, s, b, g, c, star, d]) == [a, b, c, d]
  {
    assert RunFrom(kind, Start, [a, o, t, x, s, b]) == [a, b] by {
      IgnoredThenSpecific(kind, a, o, t, x, s, b);
    }
    StarFirst(kind, c, star, d);
    GeneralResets(kind, [a, o, t, x, s, b], g, [c, star, d]);
    assert [a, o, t, x, s, b] + [g] + [c, star, d] == [a, o, t, x, s, b, g, c, star, d];
  }

  // ---------------------------------------------------------------------------
  // The tests

  /** The text the tests expect, line by line. */
  lemma ExpectedOutputs()
    ensures Output.Render(["1", "2", "3"]) == "1\n2\n3\n"
    ensures Output.Render(["1", "2", "3", "4"]) == "1\n2\n3\n4\n"
  {
  }

  /** `parsing1`: a specific block is kept, an unrelated one dropped, and
      text after the general marker is kept. */
  lemma Parsing1()
    ensures Output.Render(ProcessLines(TestParser(), ["1", ">>> thisone", "2", ">>> other", "XXX", ">>>", "3"]))
            == "1\n2\n3\n"
  {
    assert Output.Render(ProcessLines(TestParser(), ["1", ">>> thisone", "2", ">>> other", "XXX", ">>>", "3"])) == Output.Render(["1", "2", "3"]) by {
      ContentLinesOfTests();
      ThisOneIsSpecific();
      OtherIsIgnored();
      BareIsGeneral();
      SpecificThenIgnoredSwitch(ClassifierOf(TestParser()), "1", ">>> thisone", "2", ">>> other", "XXX", ">>>", "3");
    }
    ExpectedOutputs();
  }

  /** `parsing2`: once `thisone` was selected, the `*` block is dropped. */
  lemma Parsing2()
    ensures Output.Render(ProcessLines(TestParser(), ["1", ">>> thisone", "2", ">>> other", "XXX", ">>> *", "XXX", ">>>", "3"]))
            == "1\n2\n3\n"
  {
    assert Output.Render(ProcessLines(TestParser(), ["1", ">>> thisone", "2", ">>> other", "XXX", ">>> *", "XXX", ">>>", "3"])) == Output.Render(["1", "2", "3"]) by {
      ContentLinesOfTests();
      ThisOneIsSpecific();
      OtherIsIgnored();
      StarIsOtherwise();
      BareIsGeneral();
      SpecificThenStarSwitch(ClassifierOf(TestParser()), "1", ">>> thisone", "2", ">>> other", "XXX", ">>> *", "XXX", ">>>", "3");
    }
    ExpectedOutputs();
  }

  /** `parsing3`: `thisone` is never named, so the `*` block is kept. */
  lemma Parsing3()
    ensures Output.Render(ProcessLines(TestParser(), ["1", ">>> other", "XXX", ">>> *", "2", ">>>", "3"]))
            == "1\n2\n3\n"
  {
    assert Output.Render(ProcessLines(TestParser(), ["1", ">>> other", "XXX", ">>> *", "2", ">>>", "3"])) == Output.Render(["1", "2", "3"]) by {
      ContentLinesOfTests();
      OtherIsIgnored();
      StarIsOtherwise();
      BareIsGeneral();
      IgnoredThenStarSwitch(ClassifierOf(TestParser()), "1", ">>> other", "XXX", ">>> *", "2", ">>>", "3");
    }
    ExpectedOutputs();
  }

  /** `parsing4`: indentation before the delimiter, text before it, no space
      after it, and a `*` block in a second switch. */
  lemma Parsing4()
    ensures Output.Render(ProcessLines(TestParser(),
              ["1", "\t\t>>>other", "XXX>>>   ", "XXX", ">>>thisone", "2", ">>>", "3", "        >>>*", "4"]))
            == "1\n2\n3\n4\n"
  {
    assert Output.Render(ProcessLines(TestParser(), ["1", "\t\t>>>other", "XXX>>>   ", "XXX", ">>>thisone", "2", ">>>", "3", "        >>>*", "4"])) == Output.Render(["1", "2", "3", "4"]) by {
      ContentLinesOfTests();
      DelimiterAfterTextIsContent();
      IndentedOtherIsIgnored();
      ThisOneUnspacedIsSpecific();
      BareIsGeneral();
      IndentedStarIsOtherwise();
      TwoSwitches(ClassifierOf(TestParser()), "1", "\t\t>>>other", "XXX>>>   ", "XXX", ">>>thisone", "2", ">>>", "3", "        >>>*", "4");
    }
    ExpectedOutputs();
  }

  /** `parsing5`: the identifier selects a block labelled with a list of
      names. */
  lemma Parsing5()
    ensures Output.Render(ProcessLines(TestParser(),
              ["1", ">>> another, thisone, andanother", "2", ">>> other", "XXX", ">>>", "3"]))
            == "1\n2\n3\n"
  {
    assert Output.Render(ProcessLines(TestParser(), ["1", ">>> another, thisone, andanother", "2", ">>> other", "XXX", ">>>", "3"])) == Output.Render(["1", "2", "3"]) by {
      ContentLinesOfTests();
      IdentInListIsSpecific();
      OtherIsIgnored();
      BareIsGeneral();
      SpecificThenIgnoredSwitch(ClassifierOf(TestParser()), "1", ">>> another, thisone, andanother", "2", ">>> other", "XXX", ">>>", "3");
    }
    ExpectedOutputs();
  }
}
