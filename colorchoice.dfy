/** The colour function handed to the renderer: it looks up a word's score and returns the
    colour of the first threshold at or above it. */
module ColorChoice {
  import opened Outcomes
  import opened Thresholds

  /** The position of the first threshold at or above score, scanning the pairs of thresholds
      and colours side by side and stopping at the end of the shorter list; None if there is
      no such threshold. */
  function Bucket<C>(score: real, thresholds: seq<real>, colors: seq<C>): (r: Option<nat>)
    ensures r.Some? ==> r.value < |thresholds| && r.value < |colors| && score <= thresholds[r.value]
    ensures r.Some? ==> forall j :: 0 <= j < r.value ==> thresholds[j] < score
    ensures r.None? ==> forall j :: 0 <= j < |thresholds| && j < |colors| ==> thresholds[j] < score
  {
    if |thresholds| == 0 || |colors| == 0 then None
    else if score <= thresholds[0] then Some(0)
    else
      match Bucket(score, thresholds[1..], colors[1..])
      case None => None
      case Some(i) => Some(i + 1)
  }

  /** What the colour function answers for word: an error if the word has no score, the colour
      of its bucket if it has one, and the defensive error if no threshold covers the score. */
  function ColorOf<C>(scores: map<string, real>, thresholds: seq<real>, colors: seq<C>, word: string)
    : (r: Result<C>)
    ensures r == Err(NoScore) <==> word !in scores
    ensures r == Err(InvalidScore) <==>
      word in scores && forall j :: 0 <= j < |thresholds| && j < |colors| ==> thresholds[j] < scores[word]
    ensures r.Err? ==> r.error == NoScore || r.error == InvalidScore
    ensures (word in scores &&
             exists i :: 0 <= i < |thresholds| && i < |colors| && scores[word] <= thresholds[i])
      ==> r.Ok?
    ensures r.Ok? ==>
      word in scores &&
      exists i :: 0 <= i < |thresholds| && i < |colors| && scores[word] <= thresholds[i] &&
                  (forall j :: 0 <= j < i ==> thresholds[j] < scores[word]) && r.value == colors[i]
  {
    if word !in scores then Err(NoScore)
    else
      match Bucket(scores[word], thresholds, colors)
      case None => Err(InvalidScore)
      case Some(i) => Ok(colors[i])
  }

  /** `__choose_color__` as the Python code runs it: a scan with an early return. */
  method ChooseColor<C>(scores: map<string, real>, thresholds: seq<real>, colors: seq<C>, word: string)
    returns (r: Result<C>)
    ensures r == ColorOf(scores, thresholds, colors, word)
  {
    if word !in scores {
      return Err(NoScore);
    }
    var score := scores[word];
    var i := 0;
    while i < |thresholds| && i < |colors|
      invariant 0 <= i && i <= |thresholds| && i <= |colors|
      invariant forall j :: 0 <= j < i ==> thresholds[j] < score
    {
      if score <= thresholds[i] {
        return Ok(colors[i]);
      }
      i := i + 1;
    }
    return Err(InvalidScore);
  }

  /** With validated thresholds every score at most 1 falls in some bucket, so the
      "Invalid Score" error cannot be raised for it. */
  lemma ValidatedThresholdsCoverScore<C>(thresholds: seq<real>, colors: seq<C>, score: real)
    requires Validate(thresholds, colors).Ok?
    requires score <= 1.0
    ensures Bucket(score, thresholds, colors).Some?
  {
    var last := |thresholds| - 1;
    assert score <= thresholds[last] && last < |colors|;
  }

  /** A lower score never lands in a later bucket. */
  lemma BucketMonotone<C>(low: real, high: real, thresholds: seq<real>, colors: seq<C>)
    requires low <= high
    requires Bucket(high, thresholds, colors).Some?
    ensures Bucket(low, thresholds, colors).Some?
    ensures Bucket(low, thresholds, colors).value <= Bucket(high, thresholds, colors).value
  {
    var i := Bucket(high, thresholds, colors).value;
    assert low <= thresholds[i];
  }

  /** For sorted thresholds, bucket i holds exactly the scores above threshold i - 1 and at most
      threshold i. */
  lemma BucketIsInterval<C>(score: real, thresholds: seq<real>, colors: seq<C>, i: nat)
    requires Sorted(thresholds)
    ensures Bucket(score, thresholds, colors) == Some(i) <==>
      i < |thresholds| && i < |colors| && score <= thresholds[i] && (i == 0 || thresholds[i - 1] < score)
  {
    if i < |thresholds| && i < |colors| && score <= thresholds[i] && (i == 0 || thresholds[i - 1] < score) {
      forall j | 0 <= j < i ensures thresholds[j] < score {
        assert thresholds[j] <= thresholds[i - 1];
      }
    }
  }

  /** The answer depends only on the thresholds and colours up to the chosen position: lists
      that agree there give the same colour, whatever follows. */
  lemma ColorOfReadsOnlyPrefix<C>(scores: map<string, real>, thresholds: seq<real>, colors: seq<C>,
                                  thresholds': seq<real>, colors': seq<C>, word: string, i: nat)
    requires word in scores && Bucket(scores[word], thresholds, colors) == Some(i)
    requires i < |thresholds'| && thresholds'[..i + 1] == thresholds[..i + 1]
    requires i < |colors'| && colors'[..i + 1] == colors[..i + 1]
    ensures ColorOf(scores, thresholds', colors', word) == ColorOf(scores, thresholds, colors, word)
  {
    var score := scores[word];
    forall j | 0 <= j <= i ensures thresholds'[j] == thresholds[j] && colors'[j] == colors[j] {
      assert thresholds'[..i + 1][j] == thresholds[..i + 1][j];
      assert colors'[..i + 1][j] == colors[..i + 1][j];
    }
  }
}
