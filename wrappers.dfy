/** The optional and the success-or-failure values the handler model uses. */
module Wrappers {

  /** A value that may be absent: a missing header, a missing exit code, a missing entry. */
  datatype Option<+T> = None | Some(value: T)

  /** The outcome of a guard: the value it lets through, or the response that rejects. */
  datatype Result<+R, +E> = Success(value: R) | Failure(error: E)
}
