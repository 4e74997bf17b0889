/** Optional values and success/failure results shared by the model. */
module Wrappers {

  /** An absent-or-present value: a missing query parameter, an unset filter. */
  datatype Option<+T> = None | Some(value: T)

  /** The outcome of a step that either produces a value or stops with an error. */
  datatype Result<+T, +E> = Success(value: T) | Failure(error: E)
}
