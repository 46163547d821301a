/**
 What `Parser::process` does to whole blocks of a configuration file: the
 switch/case reading of its directives, pass-through of plain text, and the
 relation between the output and the input's content lines.
 */
module Blocks {
  import opened Classify
  import opened Selection
  import opened Reference

  /** Every line of `lines` is a content line. */
  ghost predicate AllContent(kind: Classifier, lines: seq<string>) {
    forall i :: 0 <= i < |lines| ==> kind(lines[i]) == Process
  }

  /** A run of content lines is kept whole or dropped whole, as the state
      says, and leaves the state alone. */
  lemma {:induction false} ContentRun(kind: Classifier, s: State, body: seq<string>)
    requires AllContent(kind, body)
    ensures RunFrom(kind, s, body) == (if s.emit then body else [])
    ensures FinalFrom(kind, s, body) == s
    decreases |body|
  {
    if body != [] {
      assert kind(body[0]) == Process;
      ContentRun(kind, s, body[1..]);
      assert body == [body[0]] + body[1..];
    }
  }

  /** Text with no directive passes through unchanged. */
  lemma PassThrough(kind: Classifier, lines: seq<string>)
    requires AllContent(kind, lines)
    ensures RunFrom(kind, Start, lines) == lines
  {
    ContentRun(kind, Start, lines);
  }

  /** Processing the sequence of kept lines again changes nothing: every
      kept line is a content line. This is about sequences of lines; on
      text, a kept line ending in `\r` is read back without it. */
  lemma Idempotent(p: Parser, lines: seq<string>)
    ensures ProcessLines(p, ProcessLines(p, lines)) == ProcessLines(p, lines)
  {
    PassThrough(ClassifierOf(p), ProcessLines(p, lines));
  }

  /** With an empty delimiter every line is a directive, so nothing is
      kept. */
  lemma EmptyDelimiterKeepsNothing(p: Parser, lines: seq<string>)
    requires p.delimiter == []
    ensures ProcessLines(p, lines) == []
  {
    var out := ProcessLines(p, lines);
    if out != [] {
      EmptyDelimiterMatchesEveryLine(p, out[0]);
    }
  }

  /** Output after `before` followed by one more line `x` and then `after`. */
  lemma SplitAround(kind: Classifier, before: seq<string>, x: string, after: seq<string>)
    ensures RunFrom(kind, Start, before + [x] + after)
            == RunFrom(kind, Start, before)
               + Emit(kind, FinalFrom(kind, Start, before), x)
               + RunFrom(kind, Transition(FinalFrom(kind, Start, before), kind(x)), after)
  {
    RunAppend(kind, Start, before + [x], after);
    RunSnoc(kind, Start, before, x);
  }

  /** A general marker ends the switch: what follows it is processed as if
      the file started there. */
  lemma GeneralResets(kind: Classifier, before: seq<string>, g: string, after: seq<string>)
    requires kind(g) == EnterGeneral
    ensures RunFrom(kind, Start, before + [g] + after) == RunFrom(kind, Start, before) + RunFrom(kind, Start, after)
  {
    SplitAround(kind, before, g, after);
  }

  /** The block after a marker naming the identifier is kept. */
  lemma SpecificBlockKept(kind: Classifier, before: seq<string>, s: string, body: seq<string>)
    requires kind(s) == EnterSpecific
    requires AllContent(kind, body)
    ensures RunFrom(kind, Start, before + [s] + body) == RunFrom(kind, Start, before) + body
  {
    SplitAround(kind, before, s, body);
    ContentRun(kind, State(true, true), body);
  }

  /** The block after a marker that names neither the identifier nor `*` is
      dropped. */
  lemma IgnoreBlockDropped(kind: Classifier, before: seq<string>, s: string, body: seq<string>)
    requires kind(s) == EnterIgnore
    requires AllContent(kind, body)
    ensures RunFrom(kind, Start, before + [s] + body) == RunFrom(kind, Start, before)
  {
    var st := FinalFrom(kind, Start, before);
    SplitAround(kind, before, s, body);
    ContentRun(kind, st.(emit := false), body);
  }

  /** The `*` block is the default case: kept exactly when no block naming
      the identifier was entered since the last general marker. */
  lemma OtherwiseBlock(kind: Classifier, before: seq<string>, s: string, body: seq<string>)
    requires kind(s) == EnterOtherwise
    requires AllContent(kind, body)
    ensures RunFrom(kind, Start, before + [s] + body)
            == RunFrom(kind, Start, before) + (if SeenSpecificSince(Actions(kind, before)) then [] else body)
  {
    var st := FinalFrom(kind, Start, before);
    SplitAround(kind, before, s, body);
    StateAfter(kind, before);
    ContentRun(kind, st.(emit := !st.seenSpecific), body);
  }

  /** With no block naming the identifier anywhere before it, the `*` block
      is kept. */
  lemma OtherwiseWithoutSpecificKept(kind: Classifier, before: seq<string>, s: string, body: seq<string>)
    requires forall i :: 0 <= i < |before| ==> kind(before[i]) != EnterSpecific
    requires kind(s) == EnterOtherwise
    requires AllContent(kind, body)
    ensures RunFrom(kind, Start, before + [s] + body) == RunFrom(kind, Start, before) + body
  {
    OtherwiseBlock(kind, before, s, body);
  }

  /** A specific block entered after `before` and followed by no general
      marker is still seen at the end of `mid`. */
  lemma SpecificStillSeen(kind: Classifier, before: seq<string>, s: string, mid: seq<string>)
    requires kind(s) == EnterSpecific
    requires forall i :: 0 <= i < |mid| ==> kind(mid[i]) != EnterGeneral
    ensures SeenSpecificSince(Actions(kind, before + [s] + mid))
  {
    var prefix := before + [s] + mid;
    var acts := Actions(kind, prefix);
    var n := |before|;
    assert acts[n] == EnterSpecific by {
      assert prefix[n] == s;
    }
    forall j | n < j < |acts|
      ensures acts[j] != EnterGeneral
    {
      var i := j - n - 1;
      assert prefix[j] == mid[i];
      assert kind(mid[i]) != EnterGeneral;
    }
    assert NoGeneralAfter(acts, n);
  }

  /** Once a block naming the identifier has been entered, a later `*` block
      of the same switch (no general marker in between) is dropped. */
  lemma OtherwiseAfterSpecificDropped(
    kind: Classifier, before: seq<string>, s: string, mid: seq<string>, o: string, body: seq<string>)
    requires kind(s) == EnterSpecific
    requires forall i :: 0 <= i < |mid| ==> kind(mid[i]) != EnterGeneral
    requires kind(o) == EnterOtherwise
    requires AllContent(kind, body)
    ensures RunFrom(kind, Start, before + [s] + mid + [o] + body) == RunFrom(kind, Start, before + [s] + mid)
  {
    SpecificStillSeen(kind, before, s, mid);
    OtherwiseBlock(kind, before + [s] + mid, o, body);
  }

  // ---------------------------------------------------------------------------
  // The output and the content lines

  /** The content lines of `lines`, in order. */
  function ContentLines(kind: Classifier, lines: seq<string>): seq<string>
    decreases |lines|
  {
    if lines == [] then []
    else (if kind(lines[0]) == Process then [lines[0]] else []) + ContentLines(kind, lines[1..])
  }

  /** `a` is `b` with some elements left out. */
  predicate IsSubsequence<T(==)>(a: seq<T>, b: seq<T>)
    decreases |b|
  {
    || a == []
    || (b != [] && ((a[0] == b[0] && IsSubsequence(a[1..], b[1..])) || IsSubsequence(a, b[1..])))
  }

  /** Putting an element in front of the longer sequence keeps a
      subsequence one, whether or not the shorter one takes it too. */
  lemma SubsequenceCons<T>(a: seq<T>, b: seq<T>, x: T)
    requires IsSubsequence(a, b)
    ensures IsSubsequence(a, [x] + b)
    ensures IsSubsequence([x] + a, [x] + b)
  {
    assert ([x] + b)[1..] == b;
    assert ([x] + a)[1..] == a;
  }

  /** The output keeps content lines only, in their input order. */
  lemma {:induction false} OutputIsSubsequence(kind: Classifier, s: State, lines: seq<string>)
    ensures IsSubsequence(RunFrom(kind, s, lines), ContentLines(kind, lines))
    decreases |lines|
  {
    if lines != [] {
      var x := lines[0];
      var a := kind(x);
      var rest := RunFrom(kind, Transition(s, a), lines[1..]);
      var content := ContentLines(kind, lines[1..]);
      OutputIsSubsequence(kind, Transition(s, a), lines[1..]);
      assert RunFrom(kind, s, lines) == Emit(kind, s, x) + rest;
      if a == Process {
        assert ContentLines(kind, lines) == [x] + content;
        SubsequenceCons(rest, content, x);
        if s.emit {
          assert RunFrom(kind, s, lines) == [x] + rest;
        } else {
          assert RunFrom(kind, s, lines) == rest;
        }
      } else {
        assert ContentLines(kind, lines) == content;
        assert RunFrom(kind, s, lines) == rest;
      }
    }
  }
}
