/** The comparative word cloud: validation, per-group frequencies, the score table, and what is
    handed to the renderer (the combined text and the colour function's captured state). */
module TwoGroupCloud {
  import opened Outcomes
  import opened Tokens
  import opened Frequencies
  import opened Thresholds
  import opened Scoring
  import opened ColorChoice

  /** What the renderer receives: the text to lay out, and the scores, thresholds and colours
      the colour function closes over. */
  datatype Cloud<C> = Cloud(text: string, scores: map<string, real>, thresholds: seq<real>, colors: seq<C>)

  /** The word-cloud function up to the call into the renderer. */
  method BuildCloud<C>(text1: string, text2: string, thresholds: seq<real>, colors: seq<C>)
    returns (r: Result<Cloud<C>>)
    ensures r.Err? <==> Validate(thresholds, colors).Err?
    ensures r.Err? ==> r.error == Validate(thresholds, colors).error
    ensures r.Ok? ==> r.value.text == text1 + " " + text2
    ensures r.Ok? ==> r.value.thresholds == thresholds && r.value.colors == colors
    ensures r.Ok? ==> r.value.scores.Keys == Vocabulary(text1) + Vocabulary(text2)
    ensures r.Ok? ==> r.value.scores == ScoreTable(Split(text1), Split(text2))
  {
    var checked := Validate(thresholds, colors);
    if checked.Err? {
      return Err(checked.error);
    }
    var words1, table1 := FrequencyTable(text1);
    var words2, table2 := FrequencyTable(text2);
    var scores := ScoreWords(words1, table1, words2, table2);
    ghost var expected := ScoreTable(words1, words2);
    assert scores.Keys == expected.Keys;
    assert forall w :: w in scores ==> scores[w] == expected[w];
    assert scores == expected;
    assert scores.Keys == Vocabulary(text1) + Vocabulary(text2);
    return Ok(Cloud(text1 + " " + text2, scores, thresholds, colors));
  }

  /** The scoring loop: every word of either group gets its group-1 frequency over its combined
      frequency, read from the two default-zero frequency tables. */
  method ScoreWords(words1: seq<string>, table1: map<string, real>, words2: seq<string>, table2: map<string, real>)
    returns (scores: map<string, real>)
    requires |words1| > 0 && |words2| > 0
    requires forall w :: Lookup(table1, w) == Frequency(words1, w)
    requires forall w :: Lookup(table2, w) == Frequency(words2, w)
    ensures forall w :: w in scores <==> w in words1 || w in words2
    ensures forall w :: w in scores ==> scores[w] == WordScore(words1, words2, w)
  {
    var words := (set w | w in words1) + (set w | w in words2);
    scores := map[];
    var remaining := words;
    while remaining != {}
      invariant remaining <= words
      invariant scores.Keys == words - remaining
      invariant forall w :: w in scores ==> scores[w] == WordScore(words1, words2, w)
      decreases remaining
    {
      var w :| w in remaining;
      var f1 := Lookup(table1, w);
      var f2 := Lookup(table2, w);
      DenominatorPositive(words1, words2, w);
      scores := scores[w := f1 / (f1 + f2)];
      remaining := remaining - {w};
    }
  }

  /** Every space-separated token of the combined text has a score, and with validated
      thresholds the colour function answers a colour for it, never an error. */
  lemma EveryCloudWordGetsAColor<C>(text1: string, text2: string, thresholds: seq<real>, colors: seq<C>,
                                    word: string)
    requires Validate(thresholds, colors).Ok?
    requires word in Split(text1 + " " + text2)
    ensures ColorOf(ScoreTable(Split(text1), Split(text2)), thresholds, colors, word).Ok?
  {
    SplitAppend(text1, text2);
    var scores := ScoreTable(Split(text1), Split(text2));
    assert word in scores;
    ValidatedThresholdsCoverScore(thresholds, colors, scores[word]);
  }

  /** The example of the module's documentation, worked out as the code computes it: "hello",
      used only by group 1, scores 1 and takes the last colour; "world" scores 0 and takes the
      first. */
  lemma HelloWorldExample()
    ensures ColorOf(ScoreTable(Split("hello"), Split("world")), [0.5, 1.0], ["blue", "red"], "hello")
            == Ok("red")
    ensures ColorOf(ScoreTable(Split("hello"), Split("world")), [0.5, 1.0], ["blue", "red"], "world")
            == Ok("blue")
  {
    SplitNoSpace("hello");
    SplitNoSpace("world");
    assert "hello"[0] != "world"[0];
    SoleUsersScores("hello", "world");
    var t, c := [0.5, 1.0], ["blue", "red"];
    assert Bucket(1.0, t[1..], c[1..]) == Some(0);
    assert Bucket(1.0, t, c) == Some(1);
    assert Bucket(0.0, t, c) == Some(0);
  }

  /** With one word per group, the group-1 word scores 1 and the group-2 word scores 0. */
  lemma SoleUsersScores(a: string, b: string)
    requires a != b
    ensures a in ScoreTable([a], [b]) && ScoreTable([a], [b])[a] == 1.0
    ensures b in ScoreTable([a], [b]) && ScoreTable([a], [b])[b] == 0.0
  {
    assert WordScore([a], [b], a) == 1.0;
    assert WordScore([a], [b], b) == 0.0;
  }
}
