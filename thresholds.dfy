/** The checks run on the caller's thresholds and colours before any scoring. */
module Thresholds {
  import opened Outcomes

  /** The module's default buckets: five equal-width score ranges. */
  const DefaultThresholds: seq<real> := [0.2, 0.4, 0.6, 0.8, 1.0]
  const DefaultColors: seq<string> := ["#ff0000", "#ffa6a6", "grey", "#a6c5ff", "#0059ff"]

  /** Every threshold is at most its right neighbour: the check `generateTwoGroupWordCloud` performs. */
  predicate AdjacentSorted(t: seq<real>)
  {
    forall i :: 0 <= i < |t| - 1 ==> t[i] <= t[i + 1]
  }

  /** Every threshold is at most every later one. */
  predicate Sorted(t: seq<real>)
  {
    forall i, j :: 0 <= i <= j < |t| ==> t[i] <= t[j]
  }

  /** Checking neighbours is the same as checking every pair. */
  lemma {:induction false} AdjacentSortedIsSorted(t: seq<real>)
    ensures AdjacentSorted(t) <==> Sorted(t)
  {
    if AdjacentSorted(t) && |t| > 1 {
      var init := t[..|t| - 1];
      assert AdjacentSorted(init) by {
        forall i | 0 <= i < |init| - 1 ensures init[i] <= init[i + 1] {
          assert init[i] == t[i] && init[i + 1] == t[i + 1];
        }
      }
      AdjacentSortedIsSorted(init);
      forall i, j | 0 <= i <= j < |t| ensures t[i] <= t[j] {
        if j < |t| - 1 {
          assert init[i] <= init[j];
        } else if i < j {
          assert init[i] <= init[j - 1];
        }
      }
    }
  }

  /** The validation at the start of the word-cloud function, checks in the Python function's order:
      sortedness, then the last threshold (which fails on an empty list), then the lengths. */
  function Validate<C>(thresholds: seq<real>, colors: seq<C>): (r: Result<()>)
    ensures r.Ok? <==>
      Sorted(thresholds) && |thresholds| > 0 && thresholds[|thresholds| - 1] == 1.0 &&
      |thresholds| == |colors|
    ensures !Sorted(thresholds) ==> r == Err(UnsortedThresholds)
    ensures Sorted(thresholds) && |thresholds| == 0 ==> r == Err(NoLastThreshold)
    ensures Sorted(thresholds) && |thresholds| > 0 && thresholds[|thresholds| - 1] != 1.0
      ==> r == Err(LastThresholdNotOne)
    ensures (Sorted(thresholds) && |thresholds| > 0 && thresholds[|thresholds| - 1] == 1.0 &&
             |thresholds| != |colors|)
      ==> r == Err(LengthMismatch)
  {
    AdjacentSortedIsSorted(thresholds);
    if !AdjacentSorted(thresholds) then Err(UnsortedThresholds)
    else if |thresholds| == 0 then Err(NoLastThreshold)
    else if thresholds[|thresholds| - 1] != 1.0 then Err(LastThresholdNotOne)
    else if |thresholds| != |colors| then Err(LengthMismatch)
    else Ok(())
  }

  /** Validated thresholds all lie at or below 1, and 1 is the last of them. */
  lemma ValidatedThresholdsAtMostOne<C>(thresholds: seq<real>, colors: seq<C>)
    requires Validate(thresholds, colors).Ok?
    ensures forall i :: 0 <= i < |thresholds| ==> thresholds[i] <= 1.0
  {
  }

  /** The default thresholds and colours pass validation. */
  lemma DefaultsAreValid()
    ensures Validate(DefaultThresholds, DefaultColors) == Ok(())
  {
  }
}
