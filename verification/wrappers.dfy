/** Failure-carrying datatypes shared by the storage model. */
module Wrappers {

  /** A value that may be absent; stands for a nil-able pointer field. */
  datatype Option<+T> = None | Some(value: T)

  /** The outcome of an operation that returns only an error: `Pass` is a nil error. */
  datatype Outcome<+E> = Pass | Fail(error: E)
}
