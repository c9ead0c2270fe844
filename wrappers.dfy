/** Result shapes for the inventory's operations: a value or the kind of exception the source throws. */
module Wrappers {

  /** A value that may be missing; `None` stands for a C# `null` argument. */
  datatype Option<+T> = None | Some(value: T)

  /** The outcome of an operation that returns a value or throws. */
  datatype Result<+T, +E> = Success(value: T) | Failure(error: E)

  /** The outcome of a `void` operation that may throw. */
  datatype Outcome<+E> = Pass | Fail(error: E)
}
