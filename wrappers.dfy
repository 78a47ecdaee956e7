/** Failure-carrying wrappers shared by the whole model. */
module Wrappers {

  /** A value that may be absent: `null`/`undefined` on the JavaScript side. */
  datatype Option<+T> = None | Some(value: T) {

    /** The wrapped value, or `default` when there is none. */
    function GetOr(default: T): T {
      match this
      case Some(v) => v
      case None => default
    }
  }

  /** A computation that either yields a value or throws an error whose
      rendering (`${e}` in a template literal) is `error`. */
  datatype Result<+T> = Ok(value: T) | Err(error: string)
}
