/** The optional value used wherever the extension's code holds `null`. */
module Wrappers {

  datatype Option<T> = None | Some(value: T) {

    /** The value, or `fallback` when there is none (JavaScript's `??`). */
    function GetOr(fallback: T): T {
      match this
      case Some(v) => v
      case None => fallback
    }
  }
}
