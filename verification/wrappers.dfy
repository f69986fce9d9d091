/** Failure-carrying datatypes used throughout the model in place of C# nulls and exceptions. */
module Wrappers {

  /** A value that may be absent: the model of a C# nullable or reference that may be null. */
  datatype Option<+T> = None | Some(value: T) {

    /** The value, or `default` when absent: the model of C#'s `??` operator. */
    function GetOr(default: T): T {
      match this
      case Some(v) => v
      case None => default
    }
  }

  /** The result of an operation that either returns a value or throws. */
  datatype Result<+T, +E> = Success(value: T) | Failure(error: E)

  /** The result of an operation that returns nothing or throws. */
  datatype Outcome<+E> = Pass | Fail(error: E)
}
