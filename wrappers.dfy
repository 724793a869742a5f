/** Failure-carrying result types shared by every module of the model. */
module Wrappers {

  /** An optional value: `None` stands for Go's nil / "not found". */
  datatype Option<+T> = None | Some(value: T)

  /** The result of an operation that returns `(value, error)` in Go. */
  datatype Result<+T, +E> = Ok(value: T) | Err(error: E)

  /** The result of an operation that returns only an `error` in Go. */
  datatype Outcome<+E> = Pass | Fail(error: E)
}
