/** Optional values and results carrying a Go-style error message. */
module Results {

  /** A value that may be absent (a nil pointer or a nil error in the source). */
  datatype Option<+T> = None | Some(value: T)

  /** The (value, error) pair a Go function returns, with exactly one of the two set. */
  datatype Result<+T> = Ok(value: T) | Err(error: string)
}
