/** Option and Result values shared by every module of the model. */
module Wrappers {

  datatype Option<+T> = None | Some(value: T) {
    function GetOr(default: T): T {
      match this
      case Some(v) => v
      case None => default
    }
  }

  /** The outcome of a step that the scripts abort with a message (an exit or an uncaught exception). */
  datatype Result<+T> = Ok(value: T) | Err(message: string)
}
