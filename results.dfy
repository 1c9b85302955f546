/** Error values returned by the dice engine, the undo buffer and the party. */
module Results {

  /** A value or the error that prevented computing it (Go's `(T, error)` pair). */
  datatype Result<+T, +E> = Success(value: T) | Failure(error: E)

  /** An optional value (Go's nil-able pointer). */
  datatype Option<+T> = None | Some(value: T)
}
