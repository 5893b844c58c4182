/** Failure-compatible wrappers used across the model. */
module Wrappers {

  /** A value that may be absent: the model's stand-in for Python's `None`
      and for a computation that raised instead of returning. */
  datatype Option<+T> = None | Some(value: T)
}
