/** Failure-carrying result types shared by the rest of the model. */
module Wrappers {

  datatype Option<+T> = None | Some(value: T)

  datatype Result<+R, +E> = Ok(value: R) | Err(error: E)

  /** A success or a failure that carries no success value. */
  datatype Outcome<+E> = Pass | Fail(error: E)
}
