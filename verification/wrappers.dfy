/** Failure-carrying datatypes shared by every module of the model. */
module Wrappers {

  /** An optional value; `None` also stands for a missing or NaN reading. */
  datatype Option<+T> = None | Some(value: T) {

    function GetOr(default: T): T {
      match this
      case Some(v) => v
      case None => default
    }
  }

  /** The outcome of an operation that raises in the source. */
  datatype Result<+R, +E> = Success(value: R) | Failure(error: E)
}
