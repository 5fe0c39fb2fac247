/** Option and Result, the failure-carrying values that stand for Python's `None` and raised exceptions. */
module Wrappers {

  datatype Option<+T> = None | Some(value: T)

  /** The exceptions the core raises; each names the column, table or value that caused it. */
  datatype Error =
    | KeyError(name: string)        // a required column (or a dataset's Country column) is absent
    | ValueError(name: string)      // non-positive values before a log transform, or overlapping join columns
    | AttributeError(column: string) // `.strip()` called on a cell that is not a string

  datatype Result<+T> = Ok(value: T) | Err(error: Error)
}
