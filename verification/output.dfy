/**
 The text written for the kept lines: each line followed by exactly one
 `\n`, as `writeln!` does, and the splitting that recovers the lines.
 */
module Output {

  /** The text written for `out`. */
  function Render(out: seq<string>): string
    decreases |out|
  {
    if out == [] then [] else out[0] + "\n" + Render(out[1..])
  }

  lemma {:induction false} RenderAppend(a: seq<string>, b: seq<string>)
    ensures Render(a + b) == Render(a) + Render(b)
    decreases |a|
  {
    if a == [] {
      assert a + b == b;
    } else {
      assert (a + b)[0] == a[0];
      assert (a + b)[1..] == a[1..] + b;
      RenderAppend(a[1..], b);
    }
  }

  /** One line is written as its text and one terminator. */
  lemma RenderOne(l: string)
    ensures Render([l]) == l + "\n"
  {
    assert [l][1..] == [];
  }

  /** Index of the first `\n` in `text`, or `|text|` when there is none. */
  function LineLength(text: string): (n: nat)
    ensures n <= |text|
    ensures n < |text| ==> text[n] == '\n'
    ensures forall m :: 0 <= m < n ==> text[m] != '\n'
    decreases |text|
  {
    if text == [] || text[0] == '\n' then 0 else 1 + LineLength(text[1..])
  }

  /** Splits `\n`-terminated text back into its lines; a final fragment
      without a terminator is a line too. */
  function SplitLines(text: string): seq<string>
    decreases |text|
  {
    if text == [] then []
    else
      var n := LineLength(text);
      if n == |text| then [text] else [text[..n]] + SplitLines(text[n + 1..])
  }

  /** Every line is written with exactly one terminator: splitting the
      written text gives back the lines, provided none contains `\n`. */
  lemma {:induction false} RenderRoundTrip(out: seq<string>)
    requires forall j :: 0 <= j < |out| ==> '\n' !in out[j]
    ensures SplitLines(Render(out)) == out
    decreases |out|
  {
    if out != [] {
      var text := Render(out);
      var l := out[0];
      assert text == l + "\n" + Render(out[1..]);
      var n := LineLength(text);
      assert forall m :: 0 <= m < |l| ==> text[m] == l[m];
      assert text[|l|] == '\n';
      assert n == |l|;
      assert text[..n] == l;
      assert text[n + 1..] == Render(out[1..]);
      RenderRoundTrip(out[1..]);
      assert out == [l] + out[1..];
    }
  }
}
