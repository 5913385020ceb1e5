/** Option and Result datatypes shared by the model's modules. */
module Wrappers {

  datatype Option<+T> = None | Some(value: T)

  /** The outcome of a fallible operation: a value or an error. */
  datatype Result<+R, +E> = Success(value: R) | Failure(error: E)
}
