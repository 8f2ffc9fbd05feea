/** Failure-carrying values for the Go `(value, error)` returns. */
module Wrappers {

  datatype Option<+T> = None | Some(value: T)

  /** `Err` carries the text of the Go `error` the source returns. */
  datatype Result<+T> = Ok(value: T) | Err(error: string)
}
