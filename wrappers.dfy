/** Optional values and results with an error message, standing in for the
    `null`/`undefined` values and thrown errors of the extension's TypeScript. */
module Wrappers {

  datatype Option<+T> = None | Some(value: T) {
    /** The `x ?? default` of TypeScript. */
    function GetOr(default: T): T {
      match this
      case Some(v) => v
      case None => default
    }
  }

  datatype Result<+T> = Ok(value: T) | Err(message: string)
}
