/** The JavaScript values `null`/`undefined` next to a present value. */
module Wrappers {

  datatype Option<+T> = None | Some(value: T) {

    function GetOr(default: T): T {
      match this
      case Some(v) => v
      case None => default
    }
  }

  /** A request outcome: a value, or the message of the error that was thrown. */
  datatype Result<+T> = Ok(value: T) | Err(message: string)
}
