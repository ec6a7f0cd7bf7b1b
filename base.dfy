/** Small value types shared by every module of the crawler model. */
module Base {

  /** A raw byte of a response body or of an IP address. */
  type byte = bv8

  /** A value that may be absent (Go's "value, ok" or nil). */
  datatype Option<+T> = None | Some(value: T)

  /** A value or the error that stopped its computation (Go's "value, err"). */
  datatype Result<+T, +E> = Success(value: T) | Failure(error: E)
}
