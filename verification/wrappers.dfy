/** Option and Result types shared by both revisions of the game engine:
    `Option` stands for a JavaScript value that may be `null`, `Result` for an
    operation that may throw. */
module Wrappers {

  datatype Option<+T> = None | Some(value: T)

  datatype Result<+T, +E> = Ok(value: T) | Err(error: E) {

    /** The carried value, or `default` when the operation failed. */
    function GetOr(default: T): T {
      match this
      case Ok(v) => v
      case Err(_) => default
    }
  }
}
