/** The two result types of the model: an optional value, and a value-or-error. */
module Outcomes {

  datatype Option<+T> = None | Some(value: T)

  /** Plays the part of `std::expected`, and of a constructor that may throw. */
  datatype Result<+T, +E> = Success(value: T) | Failure(error: E)
}
