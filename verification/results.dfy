/** Optional values and success/failure results, used where the Java code has
    `null` references or throws. Both support Dafny's `:-` operator. */
module Results {

  /** A value that may be absent (a Java `null` reference). */
  datatype Option<+T> = None | Some(value: T)

  /** Either a returned value or a thrown exception. */
  datatype Result<+T, +E> = Success(value: T) | Failure(error: E) {

    predicate IsFailure() {
      Failure?
    }

    function PropagateFailure<U>(): Result<U, E>
      requires Failure?
    {
      Failure(error)
    }

    function Extract(): T
      requires Success?
    {
      value
    }
  }
}
