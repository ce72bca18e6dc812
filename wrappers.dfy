/** Optional values and results with an error, as used by the handler model. */
module Wrappers {

  /** A document field that may be absent (`undefined` or `null` in the document). */
  datatype Option<+T> = None | Some(value: T)

  /** The outcome of a handler invocation: a value, or the error the invocation raises. */
  datatype Result<+R, +E> = Success(value: R) | Failure(error: E)
}
