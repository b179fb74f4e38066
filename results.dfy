/** Optional values and success-or-error results, used for nullable cells and
    for the errors the pipeline raises. */
module Results {

  /** A value that may be missing (a NaN cell, an unset column). */
  datatype Option<+T> = None | Some(value: T)

  /** Either the value an operation produces or the error it raises. */
  datatype Result<+T, +E> = Success(value: T) | Failure(error: E)
}
