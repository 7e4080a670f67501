/** The optional value that the mapping-table parser returns (Rust's `Option`). */
module Wrappers {
  datatype Option<+T> = None | Some(value: T)
}
