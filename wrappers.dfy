/// Failure-carrying results: the Go code returns `(value, error)` pairs and
/// never hands back a value together with a non-nil error.
module Wrappers {

  datatype Option<+T> = None | Some(value: T)

  datatype Result<+T, +E> = Ok(value: T) | Err(error: E)
}
