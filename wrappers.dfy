/** Option, Result and Outcome: null references, thrown exceptions and error returns of the source. */
module Wrappers {

  /** A value that may be absent; None stands for a null reference. */
  datatype Option<+T> = None | Some(value: T) {
    /** The value, or `default` when absent (the `??` operator). */
    function GetOr(default: T): T {
      if Some? then value else default
    }
  }

  /** A computed value or the error that stopped the computation. */
  datatype Result<+T, +E> = Success(value: T) | Failure(error: E)

  /** Completion of an operation that returns nothing, or the error it raised. */
  datatype Outcome<+E> = Pass | Fail(error: E)
}
