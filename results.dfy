/** Failure-carrying values used throughout the model in place of Java exceptions and nulls. */
module Results {

  datatype Option<+T> = None | Some(value: T)

  datatype Result<+T, +E> = Success(value: T) | Failure(error: E)
}
