/** Option and Result values used where the Kotlin code has nullable values and exceptions. */
module Wrappers {

  /** A Kotlin nullable value: `None` stands for `null`. */
  datatype Option<+T> = None | Some(value: T) {
    function GetOr(default: T): T {
      match this
      case Some(v) => v
      case None => default
    }
  }

  /** The outcome of an operation that can throw: `Failure` carries the exception's message. */
  datatype Result<+T> = Success(value: T) | Failure(error: string)
}
