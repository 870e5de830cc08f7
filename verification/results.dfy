/** Optional values and success-or-error results, used for the detector's
    optional bounding-box fields and for the crop's error returns. */
module Results {

  /** A value that may be absent: a nil field in the detector's response. */
  datatype Option<+T> = None | Some(value: T)

  /** Either a value or an error: the (value, error) pair of a fallible call. */
  datatype Result<+T, +E> = Ok(value: T) | Err(error: E) {

    predicate IsFailure() {
      Err?
    }

    function PropagateFailure<U>(): Result<U, E>
      requires Err?
    {
      Err(error)
    }

    function Extract(): T
      requires Ok?
    {
      value
    }
  }
}
