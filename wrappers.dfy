/** Option and Result values shared by the other modules. */
module Wrappers {

  datatype Option<+T> = None | Some(value: T)

  /** The result of an operation that the source lets throw. */
  datatype Result<+R, +E> = Success(value: R) | Failure(error: E)
}
