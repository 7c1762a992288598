/** Option and Result, the two failure-carrying shapes the pipeline uses. */
module Wrappers {

  /** A value that may be absent: Python's `None` or a present value. */
  datatype Option<+T> = None | Some(value: T) {
    /** The value, or `default` when absent (Python's `dict.get(key, default)`). */
    function GetOr(default: T): T {
      match this
      case Some(v) => v
      case None => default
    }
  }

  /** Either a normal result or the exception that ended the computation. */
  datatype Result<+R, +E> = Success(value: R) | Failure(error: E)
}
