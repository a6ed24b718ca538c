/** Optional values and results with an error path, used throughout the model. */
module Wrappers {

  datatype Option<+T> = None | Some(value: T) {
    /** The value, or `default` when absent (PHP's `?? default`). */
    function GetOr(default: T): T {
      if Some? then value else default
    }
  }

  /** A computation that either yields a value or fails the way PHP throws. */
  datatype Result<+T> = Ok(value: T) | Err(reason: string)
}
