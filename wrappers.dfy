/** Option and Result, used for the values the system may lack and for the
    errors it raises instead of returning. */
module Wrappers {

  datatype Option<+T> = None | Some(value: T)

  datatype Result<+T, +E> = Success(value: T) | Failure(error: E)
}
