/** Option and Result: the model's stand-ins for Ruby's `nil` and for an
    exception that escapes a command handler. */
module Wrappers {

  /** `None` plays the part of Ruby's `nil`. */
  datatype Option<+T> = None | Some(value: T) {

    /** The value, or `default` when there is none (Ruby's `x || default`). */
    function GetOr(default: T): T {
      match this
      case Some(v) => v
      case None => default
    }
  }

  /** `Failure` is an operation that raises instead of returning. */
  datatype Result<+T, +E> = Success(value: T) | Failure(error: E)
}
