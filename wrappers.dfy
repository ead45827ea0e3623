/** Rust's `Option<T>`, as used by the bridge's records. */
module Wrappers {

  datatype Option<+T> = None | Some(value: T)
}
