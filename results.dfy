/** The exceptions the pipeline can raise, and a result type carrying them. */
module Results {

  /** The two `ValueError`s the per-task pipeline can raise. */
  datatype Error =
    | RangeStepZero                              // `range(0, len, 0)`: a chunk size of zero
    | UnpackMismatch(expected: nat, got: nat)    // `a, b = xs` where `xs` does not have two elements

  datatype Result<T> = Success(value: T) | Failure(error: Error)
}
