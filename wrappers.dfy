/** Failure-carrying values used where the Python code raises or yields NaN. */
module Wrappers {

  /** `None` stands for a value Python cannot produce (a NaN mean). */
  datatype Option<+T> = None | Some(value: T)

  /** `Err` stands for an exception that aborts the Python computation. */
  datatype Result<+T, +E> = Ok(value: T) | Err(error: E)
}
