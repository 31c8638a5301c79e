/** Optional values and error returns. */
module Results {
  datatype Option<+T> = None | Some(value: T)

  /** The program's `(value, error)` returns; the text of an error is not modelled. */
  datatype Result<+T> = Success(value: T) | Failure
}
