/** Failure-compatible wrappers shared by the model: `Option` for a lookup that may
    find nothing (the store's `null`), `Result` for a handler that may throw. */
module Wrappers {

  datatype Option<+T> = None | Some(value: T)

  datatype Result<+T, +E> = Success(value: T) | Failure(error: E)
}
