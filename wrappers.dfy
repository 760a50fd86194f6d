/** Option, Result and Outcome: the error paths of the handlers are values. */
module Wrappers {

  datatype Option<+T> = None | Some(value: T)

  datatype Result<+R, +E> = Success(value: R) | Failure(error: E)

  /** A check that carries no value: it passes or fails with an error. */
  datatype Outcome<+E> = Pass | Fail(error: E)
}
