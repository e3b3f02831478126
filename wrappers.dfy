/** Rust's `Option<T>`, as the report code uses it for optional settings,
    optional categories and optional provenance. */
module Wrappers {

  datatype Option<+T> = None | Some(value: T)
}
