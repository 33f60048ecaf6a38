/** Failure-carrying datatypes shared by the CreditSim model. */
module Wrappers {

  /** A value that may be absent: JavaScript's `null` slot, a missing storage key. */
  datatype Option<+T> = None | Some(value: T) {

    /** The carried value, or `default` when there is none. */
    function GetOr(default: T): T {
      match this
      case Some(v) => v
      case None => default
    }
  }

  /** The outcome of an operation that can raise: Python's `ValueError`, a thrown `Error`. */
  datatype Result<+R, +E> = Ok(value: R) | Err(error: E)
}
