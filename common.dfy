/** Shared vocabulary of the model: optional values, results carrying the
    fatal error kinds the vertex manager can raise, and Java's 32-bit int. */
module Common {

  datatype Option<+T> = None | Some(value: T)

  /** The fatal conditions of the vertex manager. Each one aborts the stage
      in the source (an unchecked exception escaping the callback). */
  datatype Failure =
    | ProtocolViolation       // a Preconditions.checkState on the event stream failed
    | UnsupportedSplitType    // a data event whose split is not a HiveInputSplit
    | MissingBucketMapping    // a side input outside an SMB join, or absent from inputToBucketMap
    | DivisionByZero          // `%` by a bucket count of zero (ArithmeticException)
    | BucketRangeViolation    // a bucket id outside [0, numBuckets) after classification
    | UnexpectedSplitType     // a second-level sub-split that is not a grouped split (IOException)

  datatype Result<+T> = Ok(value: T) | Err(error: Failure)

  datatype Outcome = Pass | Fail(error: Failure)

  /** Java's `int`. */
  type int32 = x: int | -0x8000_0000 <= x < 0x8000_0000

  /** The consecutive integers start, start + 1, ..., start + n - 1. */
  function Range(start: int, n: nat): (r: seq<int>)
    ensures |r| == n
    ensures forall i :: 0 <= i < n ==> r[i] == start + i
  {
    seq(n, i => start + i)
  }
}
