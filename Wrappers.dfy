/** Option and Result: an absent value and a failure as values instead of null and exceptions. */
module Wrappers {

  /** `None` stands for Java's `null`; `Some(v)` for a present value. */
  datatype Option<+T> = None | Some(value: T)

  /** The outcome of a construction that may be rejected with a message. */
  datatype Result<+R, +E> = Success(value: R) | Failure(error: E)
}
