/** Values standing in for the Java exceptions of the core. */
module Results {

  /** A value that may be missing. */
  datatype Option<+T> = None | Some(value: T)

  /** Either a successful value or the error the Java code would have thrown. */
  datatype Result<+T, +E> = Success(value: T) | Failure(error: E)
}
