/** Failure-carrying values: a parse that may find nothing, a step that may raise. */
module Wrappers {

  datatype Option<+T> = None | Some(value: T)

  datatype Result<+T, +E> = Ok(value: T) | Err(error: E)

  /** The ways the script stops with an exception before printing its report. */
  datatype Error =
    | InvalidDate     // `strptime` raises ValueError on a string that is not a date
    | MalformedRange  // the `assert` on a range line with more than one ' to '
    | InvalidMonth    // `calendar.monthrange` raises on an end-of-FY month outside 1..12
    | YearOutOfRange  // `datetime` raises on a fiscal year ending after year 9999
}
