/** Small failure-carrying datatypes shared by the model. */
module Wrappers {

  datatype Option<+T> = None | Some(value: T)

  /** Either a value or the error that a request handler raises instead. */
  datatype Result<+R, +E> = Success(value: R) | Failure(error: E)
}
