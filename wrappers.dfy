/** Failure-compatible values used throughout the model: Option stands for a
    Java reference that may be null, Result and Outcome for a call that either
    returns normally or throws one of the service's exceptions. */
module Wrappers {

  datatype Option<T> = None | Some(value: T) {

    /** The wrapped value, or `default` when absent. */
    function GetOr(default: T): T {
      if Some? then value else default
    }

    /** This option when present, otherwise `other`. */
    function OrElse(other: Option<T>): Option<T> {
      if Some? then this else other
    }
  }

  /** A call that returns a value or throws. */
  datatype Result<T, E> = Ok(value: T) | Err(error: E)

  /** A `void` call that returns normally or throws. */
  datatype Outcome<E> = Pass | Fail(error: E)
}
