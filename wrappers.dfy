/** Failure-carrying wrappers used by the model: a value that may be absent,
    and the result of an operation that may fail with an error value. */
module Wrappers {

  datatype Option<+T> = None | Some(value: T)

  datatype Result<+R, +E> = Success(value: R) | Failure(error: E)
}
