/** The Option and Result wrappers used across the model. */
module Wrappers {

  /** A cell that may be missing (NaN / None / NaT in the table). */
  datatype Option<+T> = None | Some(value: T) {

    /** The value, or `default` when missing (the effect of `fillna(default)` on one cell). */
    function GetOr(default: T): T {
      match this
      case Some(v) => v
      case None => default
    }
  }

  /** A computation that either succeeds or fails with an error value. */
  datatype Result<+R, +E> = Success(value: R) | Failure(error: E)
}
