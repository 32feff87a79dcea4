/** Failure-compatible wrappers: Option stands for a Go pointer that may be nil,
    Result for an operation that either yields a value or aborts. */
module Wrappers {

  datatype Option<+T> = None | Some(value: T)

  datatype Result<+R, +E> = Success(value: R) | Failure(error: E)
}
