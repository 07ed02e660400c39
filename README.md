# Two-group comparative word cloud — a Dafny model

This project models the scoring core of `generateTwoGroupWordCloud` in `CloudModule.py`. That
function compares the vocabularies of two groups of text. It colours each word by how much more
one group used it than the other. The steps it models are:

- **Threshold validation.** The caller's thresholds must be sorted, the last one must be 1, and
  there must be one colour per threshold. The checks run in that order, and an empty threshold
  list fails at the "last threshold" check.
- **Frequency tables.** Each text is split on single spaces, which can produce empty tokens and
  always produces at least one token. Each token is counted, and each count is divided by the
  group's token count. A word the group never used reads as 0.
- **Bias scores.** Every word of either group scores `f1 / (f1 + f2)`, where `f1` and `f2` are its
  frequencies in the two groups.
- **Colour choice.** This is the closure handed to the renderer. It fails for a word without a
  score. Otherwise it walks the thresholds and colours side by side and returns the colour of the
  first threshold at or above the score. If no threshold qualifies it raises a defensive error.

Frequencies and scores are exact `real` ratios of counts. Colours are a type parameter. The
module's exceptions become the `Outcomes.Error` kinds carried by `Outcomes.Result`.

Modules, one per stage of the pipeline:
`Outcomes` (error kinds), `Tokens` (splitting on a space), `Ratios` (division facts),
`Frequencies` (counting and normalising), `Thresholds` (validation, defaults),
`Scoring` (bias scores), `ColorChoice` (the colour function) and `TwoGroupCloud` (the function
itself, up to the call into the renderer).

The module's documentation (`CloudModule.py:30` and the example at `CloudModule.py:47-55`) says
that a lower score means group 1 used the word more, and that in its example "hello" comes out in
the first colour. The code at line 94 does the opposite: a word used only by group 1 scores 1
and takes the colour of the first threshold equal to 1. The model follows the code;
`TwoGroupCloud.HelloWorldExample` works that example out as the code computes it ("hello" gets
"red", "world" gets "blue"). For the same reason, scores lie in the closed interval [0, 1], and
the ends 0 and 1 are reached, not excluded.

## Model

| member | source | states |
|---|---|---|
| `Tokens.Split` | CloudModule.py:75-76 | splitting on `' '` always gives at least one token, and no token contains a space |
| `Tokens.SplitLength` | CloudModule.py:75-76 | the number of tokens is the number of spaces plus one |
| `Tokens.JoinSplit` | CloudModule.py:75-76 | joining the tokens with single spaces gives the text back |
| `Tokens.SplitJoin` | CloudModule.py:75-76 | splitting a join of space-free tokens gives those tokens back |
| `Tokens.SplitCons` | CloudModule.py:75-76 | a leading space opens a new empty first piece; any other leading character joins the first piece |
| `Tokens.SplitAppend` | CloudModule.py:97 | the tokens of the combined text `group_1_text + ' ' + group_2_text` are group 1's tokens followed by group 2's |
| `Frequencies.CountWords` | CloudModule.py:78-79 | the counter holds exactly the tokens that occur, each with its number of occurrences (at least 1) |
| `Frequencies.Frequency` | CloudModule.py:82-86 | a word's frequency lies in [0, 1]; it is positive exactly when the word occurs and 0 exactly when it does not |
| `Frequencies.FrequencyTable` | CloudModule.py:75-86 | the table's keys are the text's distinct tokens, every stored value is positive, and reading any word with default 0 gives its occurrences over the token count |
| `Frequencies.Distinct` | CloudModule.py:78-79 | the counter's keys in first-occurrence order: exactly the words that occur, each once |
| `Frequencies.CountsSumToLength` | CloudModule.py:78-79 | the counts of the distinct words add up to the number of tokens |
| `Frequencies.FrequenciesSumToOne` | CloudModule.py:82-83 | the frequencies of a group's distinct words add up to exactly 1 |
| `Thresholds.AdjacentSortedIsSorted` | CloudModule.py:59 | checking each neighbouring pair, as the `all(...)` test does, is the same as checking every pair |
| `Thresholds.Validate` | CloudModule.py:59-66 | validation passes exactly when the thresholds are sorted, non-empty, end in 1 and match the colours in number; otherwise it reports the first failing check in the order sorted, last threshold (an empty list fails here), length |
| `Thresholds.ValidatedThresholdsAtMostOne` | CloudModule.py:59-63 | every validated threshold is at most 1 |
| `Thresholds.DefaultsAreValid` | CloudModule.py:5-6 | the default thresholds and colours pass validation |
| `Scoring.Score` | CloudModule.py:94 | `f1 / (f1 + f2)` lies in [0, 1]; it is 1 exactly when `f2` is 0, 0 exactly when `f1` is 0, above one half exactly when `f1 > f2`, and one half exactly when they are equal |
| `Scoring.DenominatorPositive` | CloudModule.py:89-94 | for every word of either group `f1 + f2 > 0`, so the division never fails |
| `Scoring.WordScore` | CloudModule.py:91-94 | a word's score lies in [0, 1]; it is 1 exactly when group 2 never used the word, 0 exactly when group 1 never did, and above one half exactly when group 1's frequency is higher |
| `Scoring.ScoreTable` | CloudModule.py:89-94 | the scores cover exactly the words of either group, each in [0, 1] |
| `Scoring.IdenticalGroupsScoreHalf` | CloudModule.py:94 | when both groups supply the same text, every word scores exactly one half |
| `ColorChoice.Bucket` | CloudModule.py:109-111 | the chosen position is the first one within both lists whose threshold is at or above the score; none exists only if every paired threshold is below the score |
| `ColorChoice.ColorOf` | CloudModule.py:104-113 | the "no score" error exactly for an unscored word; the "invalid score" error exactly when every paired threshold is below the score; no other error; a scored word with a paired threshold at or above its score always gets a colour, the one at the first such position |
| `ColorChoice.ChooseColor` | CloudModule.py:104-113 | the early-return scan answers what `ColorOf` specifies, for every input |
| `ColorChoice.ValidatedThresholdsCoverScore` | CloudModule.py:109-113 | with validated thresholds every score at most 1 finds a threshold, so the "invalid score" error is unreachable |
| `ColorChoice.BucketMonotone` | CloudModule.py:109-111 | a lower score never lands at a later position than a higher one |
| `ColorChoice.BucketIsInterval` | CloudModule.py:109-111 | with sorted thresholds, position i holds exactly the scores above threshold i-1 and at most threshold i |
| `ColorChoice.ColorOfReadsOnlyPrefix` | CloudModule.py:109-111 | nothing after the chosen position is consulted: lists that agree up to it give the same answer |
| `TwoGroupCloud.BuildCloud` | CloudModule.py:57-99 | fails exactly when validation fails, with its error; otherwise hands on the combined text, the thresholds, the colours and a score table whose keys are exactly the union of the two vocabularies and whose values are the bias scores |
| `TwoGroupCloud.ScoreWords` | CloudModule.py:89-94 | the scoring loop fills in every word of either group, and no other, with its bias score |
| `TwoGroupCloud.EveryCloudWordGetsAColor` | CloudModule.py:97-113 | with validated thresholds, every space-separated token of the combined text has a score and gets a colour, never an error |
| `TwoGroupCloud.HelloWorldExample` | CloudModule.py:47-55 | in the documented example, "hello" gets "red" and "world" gets "blue" |
| `TwoGroupCloud.SoleUsersScores` | CloudModule.py:94 | with one word per group, the group-1 word scores 1 and the group-2 word scores 0 |

## Left out

- The renderer: `WordCloud(...).generate(...)` and `wc.recolor(...)` (lines 98-99) and the
  `matplotlib` import (line 2). Layout, sizing and image generation belong to an external
  library. `BuildCloud` returns what would be handed to it: the combined text and the state the
  colour function closes over.
- The renderer's own tokenisation of the combined text. `EveryCloudWordGetsAColor` covers the
  tokens of a split on single spaces. A word the renderer extracts differently can still reach
  the "no score" error, and the model cannot see which words those are.
- The canvas parameters `wc_height`, `wc_width` and `wc_background_color`. They are only passed
  through to the renderer.
- The punctuation and lower-case warnings (lines 68-72). They only print to the console and do
  not affect the result. As written, the test at line 71 applies `not` to group 1 only, so it
  warns only when group 1 is not lower case and group 2 is.
- IEEE floating point. Frequencies and scores are exact rationals, and `thresholds[-1] == 1` is
  an exact comparison.
- Text normalisation (possessives, digits, lower case). No such function is part of this
  source file; its documentation says the input arrives already preprocessed.
- The exception message texts. Each exception is one `Outcomes.Error` constructor.
- Reading a missing word from a `defaultdict` also inserts it with value 0.0. The scoring loop
  visits each word of the union set once, so an inserted 0.0 is never read back; the model reads
  the tables with a default and does not insert.
- Python's dynamic typing: thresholds are reals, texts are strings, colours are values of one type.
