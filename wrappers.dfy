/** Failure-carrying values shared by the modules of this model. */
module Wrappers {

  /** Python's `None`-or-value. */
  datatype Option<+T> = None | Some(value: T)

  /** The Python exceptions that the modelled code lets escape. */
  datatype Error =
    | StopIteration  // `next(...)` over a generator that yields nothing
    | IndexError     // a list subscript past the end

  /** Either the value the Python code returns or the exception it raises. */
  datatype Result<+T> = Ok(value: T) | Err(error: Error)
}
