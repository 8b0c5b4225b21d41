/** The one error the library raises: `operator[]` throws a string literal. */
module Failures {

  /** Outcome of an operation that may throw: a value, or the thrown message. */
  datatype Result<+T> = Ok(value: T) | Throw(what: string)

  /** The literal every `operator[]` throws for an index past the last component. */
  const IndexOutOfBound: string := "index out of bound!"
}
