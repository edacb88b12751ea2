/** Failure-compatible wrappers shared by the other modules. */
module Options {

  /** A value that may be absent (Python's `None`). */
  datatype Option<+T> = None | Some(value: T)

  /** Either a value or the error the source raises or returns instead. */
  datatype Result<+T, +E> = Success(value: T) | Failure(error: E)
}
