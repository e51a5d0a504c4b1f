/** Failure values shared by the whole model: the source's `(value, error)` returns and optional pointers. */
module Wrappers {

  /** A pointer or map lookup that may be absent. */
  datatype Option<+T> = None | Some(value: T)

  /** The source's `(value, error)` return pair. */
  datatype Result<+T, +E> = Success(value: T) | Failure(error: E)
}
