/** Option and Result, the two wrappers the model uses for `null`/`undefined` and for error returns. */
module Wrappers {

  /** A value that may be absent: `null` or `undefined` in the TypeScript sources, `Option` in Rust. */
  datatype Option<+T> = None | Some(value: T) {
    function GetOr(default: T): T
    {
      match this
      case Some(v) => v
      case None => default
    }
  }

  /** The outcome of an operation that can fail with an error message. */
  datatype Result<+T, +E> = Ok(value: T) | Err(error: E)

  /** What reading a JSON-encoded entry back yields: nothing stored (null or the empty string), text that
      `JSON.parse` rejects, or the decoded value. */
  datatype Stored<+T> = Missing | Malformed | Decoded(value: T)
}
