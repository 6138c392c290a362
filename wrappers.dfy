/** Optional values and JavaScript-style completions shared by the client and server models. */
module Wrappers {

  /** A value that may be absent (a JavaScript `null` result of a failed lookup or match). */
  datatype Option<+T> = None | Some(value: T) {
    function GetOr(default: T): T {
      match this
      case Some(v) => v
      case None => default
    }
  }

  /** The completion of a JavaScript expression: a normal value, or a thrown TypeError
      (reading a property of `null` or `undefined`). */
  datatype Completion<+T> = Normal(value: T) | Throw
}
