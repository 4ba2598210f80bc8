/** Option and Result wrappers used by the menu model. `None` in a numeric
    position stands for the JavaScript value NaN. */
module Results {

  datatype Option<+T> = None | Some(value: T)

  /** Outcome of an operation that either produces a value or fails with
      an error (the source throws an Error in the failing case). */
  datatype Result<+T, +E> = Success(value: T) | Failure(error: E)
}
