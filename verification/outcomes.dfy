/** Option and Result, the two failure-carrying shapes the console code uses. */
module Outcomes {

  /** Rust's `Option`: a value that may be absent. */
  datatype Option<+T> = None | Some(value: T) {

    /** The value if present, otherwise `default` (Rust's `unwrap_or`). */
    function GetOr(default: T): T {
      match this
      case Some(v) => v
      case None => default
    }
  }

  /** Rust's `Result`: a value, or an error describing why there is none. */
  datatype Result<+T, +E> = Ok(value: T) | Err(error: E)
}
