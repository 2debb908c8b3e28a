/** Option and Result, used for the values the source returns as `None`
    and for the exceptions it raises. */
module Wrappers {
  datatype Option<+T> = None | Some(value: T)

  datatype Result<+T, +E> = Success(value: T) | Failure(error: E)
}
