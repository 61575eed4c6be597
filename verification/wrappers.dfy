/** Failure-compatible wrappers used by the reminder sweep model. */
module Wrappers {

  /** A value that may be absent; `None` stands for a database NULL. */
  datatype Option<+T> = None | Some(value: T)

  /** The outcome of a step that either yields a value or stops with an error. */
  datatype Result<+R, +E> = Ok(value: R) | Err(error: E)
}
