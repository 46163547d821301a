/**
 A description of `Parser::process` that does not mention its flags: the
 state after a prefix is read off the directives in it, and a content line
 is kept exactly when that state says so. The state machine is proved to
 agree with it, and the effect of each kind of block follows.
 */
module Reference {
  import opened Classify
  import opened Selection

  /** The classification of every line. */
  function Actions(kind: Classifier, lines: seq<string>): seq<LineAction> {
    seq(|lines|, i requires 0 <= i < |lines| => kind(lines[i]))
  }

  /** No general marker among `acts` after index `i`. */
  ghost predicate NoGeneralAfter(acts: seq<LineAction>, i: nat) {
    forall j :: i < j < |acts| ==> acts[j] != EnterGeneral
  }

  /** A specific block was entered since the last general marker (or since
      the start). */
  ghost predicate SeenSpecificSince(acts: seq<LineAction>) {
    exists i: nat :: i < |acts| && acts[i] == EnterSpecific && NoGeneralAfter(acts, i)
  }

  /** `i` is the last directive among `acts`. */
  ghost predicate LastDirectiveAt(acts: seq<LineAction>, i: nat) {
    && i < |acts|
    && acts[i] != Process
    && forall j :: i < j < |acts| ==> acts[j] == Process
  }

  /** Whether a directive of kind `a` turns output on, given whether a
      specific block was already entered. */
  ghost predicate Opens(a: LineAction, seen: bool) {
    a == EnterGeneral || a == EnterSpecific || (a == EnterOtherwise && !seen)
  }

  /** Output is on after `acts`: either there is no directive at all, or the
      last directive opens output. */
  ghost predicate EmittingAfter(acts: seq<LineAction>) {
    || (forall i :: 0 <= i < |acts| ==> acts[i] == Process)
    || exists i: nat :: LastDirectiveAt(acts, i) && Opens(acts[i], SeenSpecificSince(acts[..i]))
  }

  /** The lines kept from `lines`, one decision per line from the prefix
      before it. */
  ghost function Selected(kind: Classifier, lines: seq<string>): seq<string>
    decreases |lines|
  {
    if lines == [] then []
    else
      var front, x := lines[..|lines| - 1], lines[|lines| - 1];
      Selected(kind, front)
      + (if kind(x) == Process && EmittingAfter(Actions(kind, front)) then [x] else [])
  }

  // ---------------------------------------------------------------------------
  // Extending a prefix by one line

  lemma ActionsSnoc(kind: Classifier, lines: seq<string>, x: string)
    ensures Actions(kind, lines + [x]) == Actions(kind, lines) + [kind(x)]
  {
    var all := lines + [x];
    assert forall i :: 0 <= i < |lines| ==> all[i] == lines[i];
  }

  lemma SeenSpecificSnoc(acts: seq<LineAction>, a: LineAction)
    ensures SeenSpecificSince(acts + [a]) <==>
              a == EnterSpecific || (a != EnterGeneral && SeenSpecificSince(acts))
  {
    var all := acts + [a];
    var n := |acts|;
    assert all[n] == a;
    assert forall j :: 0 <= j < n ==> all[j] == acts[j];
    if SeenSpecificSince(all) {
      var i: nat :| i < |all| && all[i] == EnterSpecific && NoGeneralAfter(all, i);
      if i < n {
        assert all[n] != EnterGeneral;
        assert NoGeneralAfter(acts, i);
      }
    }
    if a == EnterSpecific {
      assert NoGeneralAfter(all, n);
    } else if a != EnterGeneral && SeenSpecificSince(acts) {
      var i: nat :| i < n && acts[i] == EnterSpecific && NoGeneralAfter(acts, i);
      assert all[i] == EnterSpecific;
      assert NoGeneralAfter(all, i);
    }
  }

  lemma EmittingSnoc(acts: seq<LineAction>, a: LineAction)
    ensures EmittingAfter(acts + [a]) <==>
              if a == Process then EmittingAfter(acts) else Opens(a, SeenSpecificSince(acts))
  {
    if a == Process {
      EmittingSnocContent(acts);
    } else {
      EmittingSnocDirective(acts, a);
    }
  }

  /** A trailing content line leaves the last directive where it was. */
  lemma EmittingSnocContent(acts: seq<LineAction>)
    ensures EmittingAfter(acts + [Process]) <==> EmittingAfter(acts)
  {
    var all := acts + [Process];
    var n := |acts|;
    assert all[n] == Process;
    assert forall j :: 0 <= j < n ==> all[j] == acts[j];
    forall i: nat | i < n
      ensures LastDirectiveAt(all, i) <==> LastDirectiveAt(acts, i)
    {
    }
    assert !LastDirectiveAt(all, n);
    if EmittingAfter(all) {
      if i: nat :| LastDirectiveAt(all, i) && Opens(all[i], SeenSpecificSince(all[..i])) {
        assert all[..i] == acts[..i];
        assert LastDirectiveAt(acts, i);
      }
    }
    if EmittingAfter(acts) {
      if i: nat :| LastDirectiveAt(acts, i) && Opens(acts[i], SeenSpecificSince(acts[..i])) {
        assert all[..i] == acts[..i];
        assert LastDirectiveAt(all, i);
      } else {
        assert forall i :: 0 <= i < |all| ==> all[i] == Process;
      }
    }
  }

  /** A trailing directive is the last one. */
  lemma EmittingSnocDirective(acts: seq<LineAction>, a: LineAction)
    requires a != Process
    ensures EmittingAfter(acts + [a]) <==> Opens(a, SeenSpecificSince(acts))
  {
    var all := acts + [a];
    var n := |acts|;
    assert all[n] == a;
    assert all[..n] == acts;
    assert LastDirectiveAt(all, n);
    forall i: nat | LastDirectiveAt(all, i)
      ensures i == n
    {
    }
  }

  // ---------------------------------------------------------------------------
  // The state machine agrees with the reference

  /** One transition of the state machine is one step of the reference. */
  lemma TransitionMatchesReference(acts: seq<LineAction>, a: LineAction)
    ensures Transition(State(EmittingAfter(acts), SeenSpecificSince(acts)), a)
            == State(EmittingAfter(acts + [a]), SeenSpecificSince(acts + [a]))
  {
    SeenSpecificSnoc(acts, a);
    EmittingSnoc(acts, a);
  }

  /** The flags after any prefix are the ones the reference reads off its
      directives. */
  lemma {:induction false} StateAfter(kind: Classifier, lines: seq<string>)
    ensures FinalFrom(kind, Start, lines)
            == State(EmittingAfter(Actions(kind, lines)), SeenSpecificSince(Actions(kind, lines)))
    decreases |lines|
  {
    if lines != [] {
      var front, x := lines[..|lines| - 1], lines[|lines| - 1];
      var acts, a := Actions(kind, front), kind(x);
      assert lines == front + [x];
      StateAfter(kind, front);
      RunSnoc(kind, Start, front, x);
      ActionsSnoc(kind, front, x);
      TransitionMatchesReference(acts, a);
    }
  }

  /** `Parser::process` keeps exactly the lines the reference selects. */
  lemma {:induction false} ProcessMatchesReference(kind: Classifier, lines: seq<string>)
    ensures RunFrom(kind, Start, lines) == Selected(kind, lines)
    decreases |lines|
  {
    if lines != [] {
      var front, x := lines[..|lines| - 1], lines[|lines| - 1];
      assert lines == front + [x];
      ProcessMatchesReference(kind, front);
      RunSnoc(kind, Start, front, x);
      StateAfter(kind, front);
    }
  }
}
