/** A failure-compatible result type, used wherever the modelled code panics.
    Every panic of the source becomes a `Failure` carrying a classified error,
    so that callers can reason about exactly when it happens. */
module Results {

  datatype Result<+T, +E> = Success(value: T) | Failure(error: E) {

    predicate IsFailure() {
      Failure?
    }

    function PropagateFailure<U>(): Result<U, E>
      requires Failure?
    {
      Failure(error)
    }

    function Extract(): T
      requires Success?
    {
      value
    }
  }
}
