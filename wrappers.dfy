/** Failure-carrying values: the model's stand-in for Python's `None` and for raised exceptions. */
module Wrappers {

  datatype Option<+T> = None | Some(value: T)

  /** `Err` is an exception the Python code raises (and does not catch where it is raised). */
  datatype Result<+T, +E> = Ok(value: T) | Err(error: E)
}
