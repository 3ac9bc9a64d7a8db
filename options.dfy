/** The optional value of Rust's `Option`, used by the lookup tables and the cursor. */
module Options {
  datatype Option<+T> = None | Some(value: T)
}
