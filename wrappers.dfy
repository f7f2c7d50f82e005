/** Java's nullable references and thrown exceptions, as values. */
module Wrappers {

  /** A Java reference that may be null: None stands for null. */
  datatype Option<+T> = None | Some(value: T) {
    function GetOr(default: T): T {
      match this
      case Some(v) => v
      case None => default
    }
  }

  /** The outcome of a call that may throw: Err stands for an exception. */
  datatype Result<+T> = Ok(value: T) | Err
}
