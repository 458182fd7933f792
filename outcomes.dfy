/** Optional values and the `KeyError` failure that a Python dictionary lookup raises. */
module Outcomes {

  /** A value that may be missing, such as an absent key of a JSON object or Python's `None`. */
  datatype Option<T> = None | Some(value: T) {
    function GetOr(default: T): T {
      match this
      case Some(v) => v
      case None => default
    }
  }

  /** Either a result, or the `KeyError` raised by looking up `key` in a dictionary that lacks it. */
  datatype Outcome<T> = Ok(value: T) | KeyError(key: string)
}
