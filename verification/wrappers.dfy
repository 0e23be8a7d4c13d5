/** Option, Result and Outcome: how the model reports a Java `null`, a returned
    value or a refused request (an exception or an error message). */
module Wrappers {

  /** A value that may be absent: `None` stands for Java's `null`. */
  datatype Option<+T> = None | Some(value: T)

  /** A computed value, or the reason the request was refused. */
  datatype Result<+R, +E> = Success(value: R) | Failure(error: E)

  /** A request that either went through or was refused for a reason. */
  datatype Outcome<+E> = Pass | Fail(error: E)
}
