/** Option and Result values used across the model for Python's `None` returns and raised exceptions. */
module Wrappers {

  datatype Option<+T> = None | Some(value: T)

  /** `Ok` is a normal return; `Err` stands for the exception the source raises. */
  datatype Result<+R, +E> = Ok(value: R) | Err(error: E)

  /** A check that either passes or raises, like a Python validator returning None. */
  datatype Outcome<+E> = Pass | Fail(error: E)
}
