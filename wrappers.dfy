/** The optional value the TypeScript code writes as `T | undefined`. */
module Wrappers {

  datatype Option<+T> = None | Some(value: T) {

    /** The value, or `default` when absent (the source's `x || default`). */
    function GetOr(default: T): T {
      match this
      case Some(v) => v
      case None => default
    }
  }

  /**
   * How an evaluation ends: with a value, or by throwing (a normal or a throw
   * completion in ECMAScript's terms).
   */
  datatype Completion<+T> = Normal(value: T) | Throw
}
