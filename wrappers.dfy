/** Optional values and the pass/fail result of an operation that can throw. */
module Wrappers {
  datatype Option<T> = None | Some(value: T) {
    function GetOr(default: T): T {
      match this
      case Some(v) => v
      case None => default
    }
  }

  /** Pass, or the message of the error the source throws. */
  datatype Outcome = Pass | Fail(message: string)
}
