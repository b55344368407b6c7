/**
 The two failure-carrying wrappers the rest of the model uses: `Option` for
 Python's "value or None" and `Result` for a call that either returns or
 raises.
 */
module Results {

  /** A value that may be absent (Python's `None`). */
  datatype Option<+T> = None | Some(value: T)

  /** The outcome of a call that either returns `value` or raises `error`. */
  datatype Result<+T, +E> = Ok(value: T) | Err(error: E)
}
