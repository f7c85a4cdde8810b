/** Optional values and error-carrying results shared by every stage of the model. */
module Results {

  /** A value that may be absent: a null cell, a missing column, an empty extent. */
  datatype Option<T> = None | Some(value: T)

  /** The outcome of a stage that can fail instead of producing a value. */
  datatype Result<T, E> = Success(value: T) | Failure(error: E)
}
