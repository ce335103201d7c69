/** Option and Result, used for the source's `null` returns and `{ error }` envelopes. */
module Wrappers {
  datatype Option<+T> = None | Some(value: T)

  datatype Result<+T, +E> = Success(value: T) | Failure(error: E)
}
