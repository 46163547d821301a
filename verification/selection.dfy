/**
 The selection state machine of `Parser::process`: each line is classified,
 directives update two flags, and content lines are kept while the `emit`
 flag is set. The output is the sequence of kept lines; `Output.Render`
 turns it into the text `writeln!` produces.

 The machine only looks at each line's classification, so it is stated for
 any classifier; `ProcessLines` instantiates it with `Discriminate`.
 */
module Selection {
  import opened Classify
  import Output

  /** A way to classify lines. */
  type Classifier = string -> LineAction

  /** The classifier of a parser. */
  function ClassifierOf(p: Parser): Classifier {
    line => Discriminate(p, line)
  }

  /** The flags `output_next` and `entered_specific` of `Parser::process`. */
  datatype State = State(emit: bool, seenSpecific: bool)

  /** The state at the start of every input. */
  const Start := State(true, false)

  /** The effect of one classified line on the state. */
  function Transition(s: State, a: LineAction): State {
    match a
    case Process => s
    case EnterSpecific => State(true, true)
    case EnterIgnore => s.(emit := false)
    case EnterOtherwise => s.(emit := !s.seenSpecific)
    case EnterGeneral => Start
  }

  /** What one line adds to the output in state `s`. */
  function Emit(kind: Classifier, s: State, line: string): seq<string> {
    if kind(line) == Process && s.emit then [line] else []
  }

  /** The state after folding `Transition` over `lines` from `s`. */
  function FinalFrom(kind: Classifier, s: State, lines: seq<string>): State
    decreases |lines|
  {
    if lines == [] then s
    else FinalFrom(kind, Transition(s, kind(lines[0])), lines[1..])
  }

  /** The lines kept when processing `lines` from state `s`. Only content
      lines are ever kept, and each input line yields at most one output
      line. */
  function RunFrom(kind: Classifier, s: State, lines: seq<string>): (out: seq<string>)
    ensures |out| <= |lines|
    ensures forall j :: 0 <= j < |out| ==> kind(out[j]) == Process
    ensures forall j :: 0 <= j < |out| ==> out[j] in lines
    decreases |lines|
  {
    if lines == [] then []
    else
      var rest := RunFrom(kind, Transition(s, kind(lines[0])), lines[1..]);
      assert forall j :: 0 <= j < |rest| ==> rest[j] in lines by {
        forall j | 0 <= j < |rest| ensures rest[j] in lines {
          assert rest[j] in lines[1..];
        }
      }
      Emit(kind, s, lines[0]) + rest
  }

  /** `Parser::process` on lines already split, output as a sequence of
      lines. */
  function ProcessLines(p: Parser, lines: seq<string>): seq<string> {
    RunFrom(ClassifierOf(p), Start, lines)
  }

  /** Processing a concatenation processes the second part from the state
      the first part leaves behind. */
  lemma {:induction false} RunAppend(kind: Classifier, s: State, a: seq<string>, b: seq<string>)
    ensures RunFrom(kind, s, a + b) == RunFrom(kind, s, a) + RunFrom(kind, FinalFrom(kind, s, a), b)
    ensures FinalFrom(kind, s, a + b) == FinalFrom(kind, FinalFrom(kind, s, a), b)
    decreases |a|
  {
    if a != [] {
      assert (a + b)[0] == a[0];
      assert (a + b)[1..] == a[1..] + b;
      RunAppend(kind, Transition(s, kind(a[0])), a[1..], b);
    } else {
      assert a + b == b;
    }
  }

  /** One more line at the end: its output and state change depend only on
      the state reached before it. */
  lemma RunSnoc(kind: Classifier, s: State, a: seq<string>, x: string)
    ensures RunFrom(kind, s, a + [x]) == RunFrom(kind, s, a) + Emit(kind, FinalFrom(kind, s, a), x)
    ensures FinalFrom(kind, s, a + [x]) == Transition(FinalFrom(kind, s, a), kind(x))
  {
    RunAppend(kind, s, a, [x]);
    assert [x][1..] == [];
  }

  /** The facts one iteration of `ProcessLoop` needs about the prefix it
      extends. */
  lemma LoopStep(kind: Classifier, lines: seq<string>, i: nat)
    requires i < |lines|
    ensures FinalFrom(kind, Start, lines[..i + 1])
            == Transition(FinalFrom(kind, Start, lines[..i]), kind(lines[i]))
    ensures Output.Render(RunFrom(kind, Start, lines[..i + 1]))
            == Output.Render(RunFrom(kind, Start, lines[..i]))
               + Output.Render(Emit(kind, FinalFrom(kind, Start, lines[..i]), lines[i]))
  {
    assert lines[..i + 1] == lines[..i] + [lines[i]];
    RunSnoc(kind, Start, lines[..i], lines[i]);
    Output.RenderAppend(RunFrom(kind, Start, lines[..i]), Emit(kind, FinalFrom(kind, Start, lines[..i]), lines[i]));
  }

  /** The loop of `Parser::process`, with the two flags as local variables;
      `written` is the text sent to the output, one `writeln!` per kept
      line. */
  method ProcessLoop(p: Parser, lines: seq<string>) returns (written: string)
    ensures written == Output.Render(ProcessLines(p, lines))
  {
    var enteredSpecific := false;
    var outputNext := true;
    written := [];
    var i := 0;
    assert lines[..i] == [];
    while i < |lines|
      invariant 0 <= i <= |lines|
      invariant State(outputNext, enteredSpecific) == FinalFrom(ClassifierOf(p), Start, lines[..i])
      invariant written == Output.Render(RunFrom(ClassifierOf(p), Start, lines[..i]))
    {
      var line := lines[i];
      var action := Discriminate(p, line);
      LoopStep(ClassifierOf(p), lines, i);
      Output.RenderOne(line);
      match action {
        case Process =>
          if outputNext {
            written := written + (line + "\n");
          }
        case EnterSpecific =>
          outputNext := true;
          enteredSpecific := true;
        case EnterIgnore =>
          outputNext := false;
        case EnterOtherwise =>
          outputNext := !enteredSpecific;
        case EnterGeneral =>
          outputNext := true;
          enteredSpecific := false;
      }
      i := i + 1;
    }
    assert lines[..|lines|] == lines;
  }
}
