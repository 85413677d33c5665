/** Optional values and failures, as the source's `str | None` returns and raised exceptions. */
module Wrappers {

  /** A value that may be absent: Python's `None` or a value. */
  datatype Option<+T> = None | Some(value: T)

  /** The outcome of a call into an external collaborator that may raise. */
  datatype Result<+T, +E> = Success(value: T) | Failure(error: E)
}
