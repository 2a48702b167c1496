/** The Option type that Rust's `Option<T>` becomes in this model. */
module Wrappers {

  datatype Option<+T> = None | Some(value: T)
}
