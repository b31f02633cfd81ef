/** Option and Result, the two failure-carrying types the viewer's Rust code uses. */
module Wrappers {

  datatype Option<+T> = None | Some(value: T)

  /** `Err` carries the text an `anyhow` error displays. */
  datatype Result<+T> = Ok(value: T) | Err(error: string)
}
