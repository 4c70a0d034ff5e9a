/** Rust's two failure-carrying types, as the program uses them. */
module Prelude {

  /** `Option<T>`: `HashMap::get`, `Iterator::next` and `Iterator::last` return one. */
  datatype Option<+T> = None | Some(value: T)

  /** `Result<T, E>`: `FromStr::from_str`, `read_dir` and the SDK calls return one. */
  datatype Result<+T, +E> = Ok(value: T) | Err(error: E)
}
