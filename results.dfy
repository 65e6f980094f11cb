/** Failure-carrying values standing in for PHP's null returns and exceptions. */
module Results {

  /** A value that may be absent (PHP null). */
  datatype Option<+T> = None | Some(value: T)

  /** Either a normal return value or the exception that escaped. */
  datatype Result<+T, +E> = Success(value: T) | Failure(error: E)
}
