/** Optional values and outcomes, shaped after Rust's `Option` and `Result`. */
module Wrappers {

  /** A value that may be absent (`Option<T>`). */
  datatype Option<+T> = None | Some(value: T)

  /** A success payload or a failure reason (`Result<T, E>`; `anyhow::Result<T>` fixes `E`). */
  datatype Result<+T, +E> = Ok(value: T) | Err(error: E) {

    /** Forgets the failure reason, as `Result::ok` does. */
    function ToOption(): Option<T> {
      match this
      case Ok(v) => Some(v)
      case Err(_) => None
    }
  }
}
