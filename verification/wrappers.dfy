/** The optional-value datatype shared by the pitch-estimation modules. */
module Wrappers {

  /** `Some(value)` or `None`, as Rust's `Option`. */
  datatype Option<+T> = None | Some(value: T)
}
