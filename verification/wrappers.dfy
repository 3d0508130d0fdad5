/** The optional value and the result type the quote model returns. An
    `Option` is a JSON key that may be absent or a Java reference that may
    be null; a `Result` is either a value or an error. */
module Wrappers {

  datatype Option<+T> = None | Some(value: T) {

    /** The value, or `default` when there is none (JSON `getString(key, default)`). */
    function GetOr(default: T): T {
      match this
      case Some(v) => v
      case None => default
    }
  }

  datatype Result<+R, +E> = Success(value: R) | Failure(error: E)
}
