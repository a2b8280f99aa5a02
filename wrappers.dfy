/** Failure-carrying values used in place of null references and thrown exceptions. */
module Wrappers {

  /** A value that may be absent (a nullable reference). */
  datatype Option<+T> = None | Some(value: T)

  /** A computed value or the error that stopped the computation. */
  datatype Result<+R, +E> = Success(value: R) | Failure(error: E)

  /** The outcome of a step that computes nothing: it passes or fails with an error. */
  datatype Outcome<+E> = Pass | Fail(error: E)
}
