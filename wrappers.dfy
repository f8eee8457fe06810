/** The optional values of the source (Rust's `Option`). */
module Wrappers {

  datatype Option<+T> = None | Some(value: T)
}
