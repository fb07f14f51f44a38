/** The values every component passes around: bytes, answers that may be absent, and calls that may fail. */
module Outcomes {
  type Byte = b: int | 0 <= b < 256

  datatype Option<+T> = None | Some(value: T)

  datatype Result<+T, +E> = Ok(value: T) | Err(error: E)
}
