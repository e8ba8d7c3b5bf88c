/** Optional values, the exceptions the scripts can raise, and results that carry either. */
module Wrappers {

  datatype Option<T> = None | Some(value: T) {
    function GetOr(default: T): T {
      match this
      case Some(v) => v
      case None => default
    }
  }

  /** The Python exceptions the modelled code raises on bad data: a list index out of range,
      or a dictionary lookup of a missing key. */
  datatype Error = IndexError | KeyError(key: string)

  datatype Result<T> = Ok(value: T) | Err(error: Error)
}
