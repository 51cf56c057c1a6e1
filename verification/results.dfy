/** Failure-carrying values: the model's stand-in for Java's null returns and exceptions. */
module Results {

  /** A value that may be absent (a Java reference that may be null). */
  datatype Option<+T> = None | Some(value: T)

  /** Either a value or the reason an operation gave up (an exception in the source). */
  datatype Result<+T, +E> = Success(value: T) | Failure(error: E)
}
