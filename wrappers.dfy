/** Java's nullable references and thrown exceptions, as values. */
module Wrappers {

  /** A possibly-null reference: `None` stands for Java's `null`. */
  datatype Option<+T> = None | Some(value: T) {
    function GetOr(default: T): T {
      match this
      case Some(v) => v
      case None => default
    }
  }

  /** The outcome of an operation that may throw: `Failure` carries the exception. */
  datatype Result<+T, +E> = Success(value: T) | Failure(error: E)
}
