/** Option and Result types shared by the dendrogram model. */
module Common {

  /** A value that may be absent (the source's `undefined`/`null`). */
  datatype Option<+T> = None | Some(value: T)

  /** The outcome of an operation that may throw. */
  datatype Result<+T, +E> = Success(value: T) | Failure(error: E)
}
