/** Optional values and results with an error, as the model's error paths. */
module Wrappers {

  /** A value that may be absent: JavaScript's `undefined`/`null`. */
  datatype Option<+T> = None | Some(value: T)
  {
    function GetOr(fallback: T): T
    {
      if Some? then value else fallback
    }
  }

  /** The outcome of an operation that may throw. */
  datatype Result<+T, +E> = Ok(value: T) | Err(error: E)
}
