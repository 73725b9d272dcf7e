/** Optional values and success-or-error results shared by the other modules. */
module Wrappers {

  /** A value that may be absent, as a nullable field or an unmatched regex is. */
  datatype Option<+T> = None | Some(value: T)

  /** The outcome of a handler: the new value, or the reason it was refused. */
  datatype Result<+T, +E> = Success(value: T) | Failure(error: E)
}
