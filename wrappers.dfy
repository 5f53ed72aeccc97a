/** Option and Result values used throughout the model for absent values
    and for the exceptions the scripts raise or catch. */
module Wrappers {

  datatype Option<+T> = None | Some(value: T) {
    function GetOr(default: T): T {
      match this
      case Some(v) => v
      case None => default
    }
  }

  /** `Err` carries the `message` of a JavaScript exception. */
  datatype Result<+T> = Ok(value: T) | Err(message: string)

  /** The outcome of a filesystem call that returns nothing but may throw. */
  datatype Status = Done | Threw(message: string)
}
