/** Failure-carrying values used throughout the model: a missing value (R `NA`,
    pandas NaN) is `None`, an exception that a step raises is `Failure`. */
module Wrappers {

  datatype Option<+T> = None | Some(value: T)

  datatype Result<+T, +E> = Success(value: T) | Failure(error: E)
}
