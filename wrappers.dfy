/** Option and Result values for the action layer's missing rows and thrown errors. */
module Wrappers {

  datatype Option<T> = None | Some(value: T) {
    /** The value, or `default` when absent: a JavaScript destructuring default. */
    function GetOr(default: T): T {
      match this
      case Some(v) => v
      case None => default
    }
  }

  /** The outcome of a server action: its value, or the message of the error it throws. */
  datatype Result<T> = Ok(value: T) | Err(message: string)

  /** The outcome of a server action that returns nothing: it completes, or throws. */
  datatype Outcome = Pass | Fail(message: string)
}
