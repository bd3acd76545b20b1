/** Option and Result datatypes shared by the modules of this model. */
module Common {

  /** A value that may be absent (a C `nullptr`, a Python `None`). */
  datatype Option<+T> = None | Some(value: T)

  /** The outcome of an operation that may raise: a value, or the error raised. */
  datatype Result<+R, +E> = Success(value: R) | Failure(error: E)
}
