/** Failure-compatible result type for the operations that panic in the
    library (an unwrap of a failed numeric parse, an out-of-range index).
    Each panic becomes an `Err` carrying the kind of failure. */
module Outcomes {

  datatype Option<+T> = None | Some(value: T)

  /** Why an operation failed. */
  datatype Error =
    | NumberTooLarge     // a captured digit string does not fit its integer field
    | IndexOutOfBounds   // a lyric line past the end was indexed, or `len() - 1` underflowed in `deltas`

  datatype Result<+T> = Ok(value: T) | Err(error: Error) {

    predicate IsFailure() {
      Err?
    }

    function PropagateFailure<U>(): Result<U>
      requires Err?
    {
      Err(error)
    }

    function Extract(): T
      requires Ok?
    {
      value
    }
  }
}
