/** Failure-carrying wrappers used across the model: a missing value (Python's
    `None`) and a value-or-error result (a Python function that either returns
    or raises). */
module Wrappers {

  datatype Option<+T> = None | Some(value: T)

  datatype Result<+R, +E> = Success(value: R) | Failure(error: E)
}
