/** Failure-carrying return values: Go's `(T, error)` pairs and nil-able errors. */
module Results {

  /** A value that may be absent, such as a Go error that may be nil. */
  datatype Option<+T> = None | Some(value: T)

  /** Either a value or an error, never both: the Go convention of returning
      a nil error exactly when the value is usable. */
  datatype Result<+T, +E> = Success(value: T) | Failure(error: E)
}
