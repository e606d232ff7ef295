/** Optional values, results with an error, and request fields that may be unset. */
module Outcomes {
  datatype Option<+T> = None | Some(value: T)

  datatype Result<+T, +E> = Ok(value: T) | Err(error: E)

  /** A key of a request body: `Unset` when the client did not send it. An
      explicit null is `Sent(None)`. */
  datatype Sent<+T> = Unset | Sent(value: T)
}
