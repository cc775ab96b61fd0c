/** Option and Result values standing for JavaScript's `undefined`/`null` and thrown `Error`s. */
module Wrappers {

  datatype Option<+T> = None | Some(value: T) {
    /** `x || dflt` in JavaScript when the only falsy value of `x` is `undefined`. */
    function GetOr(dflt: T): T {
      match this
      case Some(v) => v
      case None => dflt
    }
  }

  /** An operation that either returns a value or throws an `Error` whose `message` is `error`. */
  datatype Result<+T> = Ok(value: T) | Err(error: string)
}
