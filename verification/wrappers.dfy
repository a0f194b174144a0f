/** Failure-carrying datatypes shared by the other modules. `None` in an
    `Option` field also stands for a Python attribute that was never assigned. */
module Wrappers {

  datatype Option<+T> = None | Some(value: T)

  datatype Result<+R, +E> = Success(value: R) | Failure(error: E)
}
