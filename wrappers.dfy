/** Option and Result, used for the JavaScript values that may be absent
    and for the error paths of the route handlers. */
module Wrappers {

  datatype Option<+T> = None | Some(value: T)

  datatype Result<+T, +E> = Success(value: T) | Failure(error: E)
}
