/** The error kinds the word-cloud module raises, and the wrappers that carry them. */
module Outcomes {

  /** One constructor per exception the module raises; the message texts are not modelled. */
  datatype Error =
    | UnsortedThresholds     // "Thresholds list is not sorted"
    | NoLastThreshold        // IndexError from thresholds[-1] on an empty list
    | LastThresholdNotOne    // "Last threshold should be 1"
    | LengthMismatch         // "Thresholds list must be same length as colors"
    | NoScore                // "No score created for <word>"
    | InvalidScore           // "Invalid Score": no threshold is at least the score

  datatype Result<+T> = Ok(value: T) | Err(error: Error)

  datatype Option<+T> = None | Some(value: T)
}
