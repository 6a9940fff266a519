/**
 * Shared vocabulary: optional values, fallible results and Rust's `u64`.
 *
 * Every `string` of the model (request fields, paths, file contents, pages,
 * response bodies) holds the UTF-8 bytes of the text, one character per
 * byte. Rust's `str` operations work on those bytes, so `contains`,
 * `replace` and a file write compare and copy exactly what the model's
 * sequences hold.
 */
module Common {

  /** A value that may be absent (Rust's `Option`). */
  datatype Option<+T> = None | Some(value: T) {
    /** The value, or `default` when absent (Rust's `unwrap_or`). */
    function GetOr(default: T): T {
      match this
      case Some(v) => v
      case None => default
    }
  }

  /** A value or an error (Rust's `Result`). */
  datatype Result<+T, +E> = Ok(value: T) | Err(error: E)

  /** One more than the largest `u64`. */
  const Uint64Limit: int := 0x1_0000_0000_0000_0000

  /** Rust's 64-bit unsigned integer. */
  newtype uint64 = x: int | 0 <= x < 0x1_0000_0000_0000_0000
}
