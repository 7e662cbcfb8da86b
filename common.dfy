/** Shared value types: an optional value and a success-or-error result. */
module Common {

  /** A value that may be absent (JavaScript's `undefined`, SQL's NULL). */
  datatype Option<+T> = None | Some(value: T)

  /** The outcome of a route handler: a success value or one of the handler's error replies. */
  datatype Result<+T, +E> = Ok(value: T) | Err(error: E)
}
