/** Option and Result datatypes used for absent values and error paths. */
module Wrappers {

  datatype Option<+T> = None | Some(value: T) {

    /** Returns the value in Some, or `default` when None. */
    function GetOr(default: T): T {
      match this
      case Some(v) => v
      case None => default
    }
  }

  /** The outcome of a call to a collaborator that can fail with a message. */
  datatype Result<+R, +E> = Success(value: R) | Failure(error: E)
}
