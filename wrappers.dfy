/** Failure-carrying results used for the fatal paths of the program
    (CW_FATAL, thrown exceptions, `null` returns). */
module Wrappers {

  datatype Option<+T> = None | Some(value: T)

  datatype Result<+T, +E> = Success(value: T) | Failure(error: E)
}
