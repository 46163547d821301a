# ssccpp line selection, in Dafny

ssccpp (the Simple Switch Cases Configuration PreProcessor) reads a
configuration file that holds *switch/case directives*. It keeps only the
lines meant for one host, named by an *identifier*. A directive is a line
that starts with a *delimiter* (for example `>>>`) after optional leading
whitespace. The text after the delimiter decides the kind of directive:

- nothing (a bare delimiter) closes the switch: the *general* marker;
- a standalone `*` opens the default case: the *otherwise* marker;
- the identifier as a whole word opens the case for this host: the *specific*
  marker;
- anything else opens a case for other hosts, which is *ignored*.

Every other line is content. Content is written, followed by `\n`, while
the current case is selected. Directives are never written.

This project models the library core in `src/lib.rs`:

- the line classifier `Parser::discriminate`, together with the three
  patterns that `Parser::new` builds;
- the two-flag state machine `Parser::process`;
- the unit tests `parsing1` to `parsing5`.

The modules follow that structure:

| module | contents |
|---|---|
| `Wrappers` | `Option` |
| `Chars` | `\s` and `\w`, and the greedy whitespace skip |
| `Patterns` | the three patterns as string predicates, each with a search function proved to decide it |
| `Classify` | `LineAction`, `Parser` and `Discriminate` |
| `Selection` | the state machine as a fold (`RunFrom`), and the loop of `process` proved equal to it |
| `Output` | the text that `writeln!` produces for the kept lines, and how to split it back |
| `Reference` | a flag-free description of which lines are kept, proved equal to the state machine |
| `Blocks` | the effect of each kind of block, pass-through, idempotence, and the output as a subsequence of the content lines |
| `Scenarios` | the lines and the files of the unit tests |

Both user strings go through `regex::escape`, so the model treats them as
literal text:

- The delimiter pattern `^\s*D\s*` becomes "some all-whitespace prefix,
  then `D`". The match ends after the maximal run of whitespace that
  follows `D`. `Patterns.DelimiterEndUnique` shows that this end does not
  depend on which prefix is taken, so the regex engine's backtracking
  choices cannot matter.
- The star pattern becomes a `*` preceded by the start of the text, `,` or
  whitespace, and followed by `,`, whitespace or the end of the text.
- `\bI\b` becomes an occurrence of `I` with a word boundary at both ends. A
  boundary is a position where the characters on the two sides differ in
  being word characters; the ends of the text count as non-word.

`\s` is the Unicode White_Space property, as the `regex` crate defines it.

The state machine is stated for any classifier (`Selection.Classifier`), so
the block lemmas hold whatever the classifier does. `ProcessLines`
instantiates it with `Discriminate`.

Two consequences of the patterns are worth knowing:

- The star and identifier patterns overlap: `* thisone` matches both. The
  `if` chain at `src/lib.rs:70-77` decides, giving the otherwise marker
  (`Scenarios.StarBeatsIdent`).
- The identifier is matched with `\b`, so any non-word character ends a
  word: identifier `web` selects a block labelled `web-01`
  (`Scenarios.HyphenatedLabelMatchesPrefix`).

## Model

| member | source | states |
|---|---|---|
| Chars.IsWhitespace | src/lib.rs:53 | `\s`, defined as the 25 code points of Unicode White_Space; used by the delimiter and star patterns |
| Chars.IsWordChar | src/lib.rs:59 | `\w` behind `\b`, defined as ASCII letters, digits and `_` |
| Chars.SkipWhitespace | src/lib.rs:53 | the greedy `\s*` after the delimiter: everything it skips is whitespace and the character it stops at is not |
| Patterns.MatchDelimiter | src/lib.rs:52-53 | a match is found exactly when the line is whitespace followed by the delimiter; the match end is the whitespace-skipped position after the delimiter, for every such start |
| Patterns.DelimiterEndUnique | src/lib.rs:53 | two admissible starts of the delimiter give the same match end, so the remainder is well defined |
| Patterns.StarTokenAt | src/lib.rs:58 | the star pattern at one position, by definition: a `*` with the start of the text, `,` or whitespace before it and `,`, whitespace or the end after it |
| Patterns.WordBoundary | src/lib.rs:59 | `\b`, by definition: a position inside or at the ends of the text where exactly one of the two neighbouring characters is a word character, the ends counting as non-word |
| Patterns.FindStar | src/lib.rs:58 | true exactly when the remainder holds a `*` with start, `,` or whitespace before it and `,`, whitespace or end after it |
| Patterns.FindIdent | src/lib.rs:59 | true exactly when the identifier occurs with a word boundary at both ends |
| Classify.ClassifyRemainder | src/lib.rs:69-78 | never `Process`; general exactly for the empty remainder; otherwise exactly when non-empty with a star; specific exactly when non-empty, no star and the identifier; ignore exactly when non-empty with neither |
| Classify.Parser | src/lib.rs:44-62 | the identifier and delimiter from which `Parser::new` builds its patterns, kept as literal text; contract in `Classify.Discriminate` and `Classify.DiscriminateSpec` |
| Classify.Remainder | src/lib.rs:69 | the text after the match end; it is no longer than the text after the delimiter and does not start with whitespace |
| Classify.LineAction | src/lib.rs:32-38 | the five results of classifying a line; the contracts are on `Discriminate`, `DiscriminateSpec` and `ClassifyRemainder` |
| Classify.Discriminate | src/lib.rs:64-81 | `Process` exactly when the delimiter pattern does not match the line |
| Classify.DiscriminateSpec | src/lib.rs:66-79 | a directive is classified by the remainder after the match, whichever delimiter start is taken |
| Classify.LeadingTextIsContent | src/lib.rs:53 | a line whose first character is not whitespace and not the delimiter's first character is content |
| Classify.IndentationIrrelevant | src/lib.rs:53 | leading whitespace before a line does not change its classification when the delimiter is empty or does not start with whitespace |
| Classify.BareDelimiterIsGeneral | src/lib.rs:57 | the delimiter with only whitespace around it is the general marker |
| Classify.EmptyDelimiterMatchesEveryLine | src/lib.rs:53 | with an empty delimiter every line is a directive |
| Selection.State | src/lib.rs:91-92 | the flags `output_next` and `entered_specific`; contract in `Reference.StateAfter` |
| Selection.Start | src/lib.rs:91-92 | `output_next` true and `entered_specific` false; contract in `Blocks.PassThrough` and `Blocks.GeneralResets` |
| Selection.Transition | src/lib.rs:102-111 | the effect of each directive on the two flags; contract in `Reference.TransitionMatchesReference` and the `Blocks` lemmas |
| Selection.Emit | src/lib.rs:96-99 | a line is written only if it is content and `output_next` holds; contract in `Selection.RunFrom` and `Blocks.OutputIsSubsequence` |
| Selection.RunFrom | src/lib.rs:93-113 | the lines kept are at most as many as the input lines, are all content lines, and all come from the input |
| Selection.RunAppend | src/lib.rs:93 | processing a concatenation processes the second part from the state left by the first |
| Selection.ProcessLines | src/lib.rs:85-115 | `Parser::process` on split lines; contract in `Reference.ProcessMatchesReference` and `Selection.ProcessLoop` |
| Selection.ProcessLoop | src/lib.rs:85-115 | the loop with the two mutable flags writes the rendering of the fold's kept lines |
| Output.Render | src/lib.rs:98 | the text `writeln!` produces for the kept lines; contract in `Output.RenderRoundTrip` and `Output.RenderAppend` |
| Output.RenderAppend | src/lib.rs:98 | the text for two runs of lines is the concatenation of their texts |
| Output.RenderRoundTrip | src/lib.rs:98 | each kept line is written with exactly one `\n`: splitting the text on `\n` gives the lines back (`SplitLines` cuts on `\n` only; `BufRead::lines` also drops a `\r` before it) |
| Reference.TransitionMatchesReference | src/lib.rs:102-111 | one flag update agrees with the flag-free reading of the directives seen so far |
| Reference.StateAfter | src/lib.rs:91-112 | after any prefix, `output_next` is "no directive yet, or the last directive opens output" and `entered_specific` is "a specific marker since the last general marker" |
| Reference.ProcessMatchesReference | src/lib.rs:93-112 | the state machine keeps exactly the content lines whose preceding directives open output |
| Blocks.PassThrough | src/lib.rs:91-99 | input without directives comes out unchanged |
| Blocks.Idempotent | src/lib.rs:93-112 | processing the sequence of kept lines again changes nothing |
| Blocks.EmptyDelimiterKeepsNothing | src/lib.rs:53 | with an empty delimiter the output is empty |
| Blocks.GeneralResets | src/lib.rs:108-111 | after a general marker the rest is processed as if the file started there, whatever came before |
| Blocks.SpecificBlockKept | src/lib.rs:102-105 | the content after a specific marker is kept, whatever came before |
| Blocks.IgnoreBlockDropped | src/lib.rs:106 | the content after an ignored case is dropped, whatever came before |
| Blocks.OtherwiseBlock | src/lib.rs:107 | the content after `*` is kept exactly when no specific marker came since the last general marker |
| Blocks.OtherwiseWithoutSpecificKept | src/lib.rs:107 | with no specific marker anywhere before it, the `*` block is kept |
| Blocks.OtherwiseAfterSpecificDropped | src/lib.rs:107 | after a specific marker, a `*` block of the same switch is dropped |
| Blocks.OutputIsSubsequence | src/lib.rs:95-112 | the output is a subsequence of the content lines, in input order |
| Scenarios.DelimiterAfterTextIsContent | src/lib.rs:183 | `XXX>>>   ` is content |
| Scenarios.IndentedOtherIsIgnored | src/lib.rs:182 | `\t\t>>>other` is a directive naming another host |
| Scenarios.IndentedStarIsOtherwise | src/lib.rs:189 | `        >>>*` is the otherwise marker |
| Scenarios.IdentInListIsSpecific | src/lib.rs:203 | `>>> another, thisone, andanother` selects `thisone` |
| Scenarios.IdentInsideWordIsIgnored | src/lib.rs:59 | `thisone` inside `notthisone` is not a whole word, so that label is ignored |
| Scenarios.StarBeatsIdent | src/lib.rs:70-77 | `* thisone` matches both the star and the identifier, and is the otherwise marker |
| Scenarios.HyphenatedLabelMatchesPrefix | src/lib.rs:59 | identifier `web` selects the label `web-01` |
| Scenarios.Parsing1 | src/lib.rs:122-138 | the test `parsing1` writes `1\n2\n3\n` |
| Scenarios.Parsing2 | src/lib.rs:140-158 | the test `parsing2` writes `1\n2\n3\n` |
| Scenarios.Parsing3 | src/lib.rs:160-176 | the test `parsing3` writes `1\n2\n3\n` |
| Scenarios.Parsing4 | src/lib.rs:178-197 | the test `parsing4` writes `1\n2\n3\n4\n` |
| Scenarios.Parsing5 | src/lib.rs:199-215 | the test `parsing5` writes `1\n2\n3\n` |

## Left out

- `regex::Error` from `Parser::new`: the escaped patterns are modelled
  directly, and building them cannot fail in the model.
- Input splitting by `BufRead::lines` and its I/O errors: the input is a
  sequence of lines, already split and without terminators.
- Write errors from `writeln!`: output is the sequence of kept lines, and
  `Output.Render` gives the text.
- `src/main.rs` and `src/bin/ssccpp-batch.rs`: they handle command lines,
  host names, files and directory walks around `Parser::new` and `process`.
- Chars.IsWordChar, Patterns.FindIdent: `\w` is ASCII letters, digits and `_`. The `regex`
  crate's `\b` is Unicode-aware, so non-ASCII letters next to the
  identifier are word characters there but not here.
- Blocks.Idempotent: holds for the sequence of kept lines, not for the
  written text. `BufRead::lines` drops a `\r` only when it comes right
  before `\n`, so a kept line ending in `\r` (from `a\r\r\n`, or a last
  line `a\r` with no terminator) is written as `a\r\n`, read back as `a`
  and written as `a\n` on a second run. Line splitting is not modelled.
- Determinism ("the same input and configuration give the same output")
  needs no lemma, since every operation is a function. Idempotence of
  processing is proved instead (`Blocks.Idempotent`).
