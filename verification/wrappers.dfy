/** Failure-carrying datatypes shared by the model: an optional value, a
    result that is either a value or an error, and a pass/fail outcome. */
module Wrappers {

  /** A value that may be absent; `None` plays the part of JavaScript's `NaN`
      or of a missing time value where the model needs one. */
  datatype Option<+T> = None | Some(value: T)

  /** Either the value an operation returns or the error it throws. */
  datatype Result<+R, +E> = Success(value: R) | Failure(error: E)

  /** The outcome of a check that returns nothing on success. */
  datatype Outcome<+E> = Pass | Fail(error: E)
}
