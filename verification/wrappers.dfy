/** Failure-carrying result types shared by the pipeline modules. */
module Wrappers {

  /** A value that may be absent; Python's `None` return is `None` here. */
  datatype Option<+T> = None | Some(value: T)

  /** The outcome of a step that either finishes or raises. */
  datatype Outcome<+E> = Pass | Fail(error: E)
}
