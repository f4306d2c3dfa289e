/** Option, Result and Outcome: the shapes of "maybe a value", "a value or
    an error" and "done or an error" used throughout the wallet model. */
module Wrappers {

  datatype Option<+T> = None | Some(value: T)

  datatype Result<+R, +E> = Success(value: R) | Failure(error: E)

  datatype Outcome<+E> = Pass | Fail(error: E)
}
