/** Result types shared by every component. */
module Wrappers {
  /** A Python `X | None` value. */
  datatype Option<+T> = None | Some(value: T)

  /** A call that either returns or raises; `error` says which refusal was raised. */
  datatype Result<+T, +E> = Ok(value: T) | Err(error: E)
}
