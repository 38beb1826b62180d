/** Failure-compatible wrappers shared by the loss kernel and the network builder. */
module Results {

  /** Either a computed value or the error that the original code raises. */
  datatype Result<+T, +E> = Success(value: T) | Failure(error: E) {
    predicate IsFailure() {
      Failure?
    }

    function PropagateFailure<U>(): Result<U, E>
      requires Failure?
    {
      Failure(error)
    }

    function Extract(): T
      requires Success?
    {
      value
    }
  }

  /** An optional argument: Python's `None` or a supplied value. */
  datatype Option<+T> = None | Some(value: T)
}
