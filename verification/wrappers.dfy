/** Failure-carrying datatypes shared by every module of the model.
    Go's `(value, error)` pairs become `Result`, nil pointers become `Option`. */
module Wrappers {

  datatype Option<+T> = None | Some(value: T) {

    /** The wrapped value, or `default` when there is none. */
    function GetOr(default: T): T {
      match this
      case Some(v) => v
      case None => default
    }
  }

  datatype Result<+T, +E> = Ok(value: T) | Err(error: E) {

    /** Drops the error, keeping only whether there was a value. */
    function ToOption(): Option<T> {
      match this
      case Ok(v) => Some(v)
      case Err(_) => None
    }
  }

  /** A Go `error` that is either nil or carries a message. */
  type Error = Option<string>
}
