/** Failure-carrying datatypes shared by the whole model: an absent value
    (`null`/`undefined` in the source) and a result that is either a value
    or an error (a thrown exception or an error reply in the source). */
module Wrappers {

  datatype Option<+T> = None | Some(value: T) {

    /** The value, or `default` when absent. */
    function GetOr(default: T): T {
      match this
      case Some(v) => v
      case None => default
    }
  }

  datatype Result<+R, +E> = Success(value: R) | Failure(error: E)
}
