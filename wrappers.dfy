/** Optional values and results with an error, standing in for Python's `None`
    and for the exceptions the pipeline lets escape. */
module Wrappers {

  /** A value that may be absent: a missing dictionary key or Python `None`. */
  datatype Option<+T> = None | Some(value: T)

  /** The outcome of a step that either produces a value or aborts the run. */
  datatype Result<+R, +E> = Ok(value: R) | Err(error: E)
}
