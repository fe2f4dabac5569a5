/** Rust vocabulary the rest of the model is written in. */
module Prelude {

  /** Rust's `Option<T>`. */
  datatype Option<T> = None | Some(value: T)
  {
    /** `Option::unwrap_or`: the value if present, otherwise `default`. */
    function UnwrapOr(default: T): (r: T)
      ensures Some? ==> r == value
      ensures None? ==> r == default
    {
      match this
      case Some(v) => v
      case None => default
    }
  }

  /** Rust's `Result<T, E>`. */
  datatype Result<T, E> = Ok(value: T) | Err(error: E)

  /** What a piece of Rust code that may hit a failing `unwrap` does:
      it returns a value, or its thread panics. */
  datatype Outcome<T> = Returns(value: T) | Panics

  /** Rust's fixed-width unsigned integers used by the core. */
  type u16 = x: int | 0 <= x < 0x1_0000
  type u64 = x: int | 0 <= x < 0x1_0000_0000_0000_0000
}
