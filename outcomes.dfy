/** What the wrapped operation `fn` does on one invocation, and what a wrapper
    hands back to its caller. The operation itself is opaque: the model is
    given its outcome instead of running it. */
module Outcomes {

  /** One invocation of `fn`: it produces a value or it throws an error. */
  datatype Outcome<+V, +E> = Returns(value: V) | Throws(error: E)

  /** What a wrapper throws: the error `fn` threw, passed on unchanged, or a
      new `Error` object carrying a message of the wrapper's own. */
  datatype Thrown<+E> = Rethrown(error: E) | ErrorMessage(message: string)

  /** What a call of a wrapper's `execute` settles with. */
  datatype Result<+V, +E> = Ok(value: V) | Err(thrown: Thrown<E>)
}
