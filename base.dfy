/** Value types shared by every module: optional values, results and bytes. */
module Base {
  /** An optional value; None stands for a Go nil pointer or a nil slice. */
  datatype Option<+T> = None | Some(value: T)

  /** The outcome of a step that may fail with an error of type E. */
  datatype Result<+T, +E> = Success(value: T) | Failure(error: E)

  /** An octet, the element type of Go's []byte. */
  newtype byte = x: int | 0 <= x < 256

  type Bytes = seq<byte>
}
