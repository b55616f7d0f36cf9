/** Option and Result, the failure-carrying values used throughout the model. */
module Wrappers {

  /** Python's `None` or a present value. */
  datatype Option<+T> = None | Some(value: T) {

    /** The present value, or `default` when absent. */
    function GetOr(default: T): T {
      match this
      case Some(v) => v
      case None => default
    }
  }

  /** The outcome of an operation that may raise: a value, or the exception raised. */
  datatype Result<+R, +E> = Success(value: R) | Failure(error: E) {

    /** The value, or `default` for a failure. */
    function GetOr(default: R): R {
      match this
      case Success(v) => v
      case Failure(_) => default
    }
  }
}

/** How Python's f-strings render the values this model interpolates. */
module Formatting {
  import opened Wrappers

  /** `f"{x}"` for an optional string: the string itself, or `None` when absent. */
  function Format(x: Option<string>): string {
    match x
    case Some(s) => s
    case None => "None"
  }
}
