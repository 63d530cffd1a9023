/** Wrappers used throughout the model: an optional value
    (Swift's `T?`) and a success-or-error result (Swift's `throws` / `Result`). */
module Wrappers {

  datatype Option<+T> = None | Some(value: T) {

    /** Swift's nil-coalescing `self ?? other`: the first present value. */
    function OrElse(other: Option<T>): Option<T>
    {
      match this
      case Some(_) => this
      case None => other
    }
  }

  datatype Result<+R, +E> = Success(value: R) | Failure(error: E)
}
