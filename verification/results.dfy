/** Failure-carrying wrappers shared by the renderer's modules. */
module Results {

  /** A value that may be absent, as a failed parse. */
  datatype Option<+T> = None | Some(value: T)

  /** Either a computed value or the error `render` raises instead. */
  datatype Result<+T, +E> = Success(value: T) | Failure(error: E)
}
