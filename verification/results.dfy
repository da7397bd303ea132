/** Failure-carrying values used across the model: an operation either
    produces a value or reports which of its collaborators failed. */
module Results {

  /** An optional value; `None` stands for a collaborator that reported
      failure or absence (a `git show` that fails, an unreadable file). */
  datatype Option<+T> = None | Some(value: T)

  /** The outcome of an operation that the source writes as `(T, error)`. */
  datatype Result<+T, +E> = Ok(value: T) | Err(error: E)
}
