/** Option and Result: the "no value" marker and the error path used throughout the model. */
module Wrappers {

  /** `None` stands for pandas' missing value (NaN/NaT) or an absent entry. */
  datatype Option<+T> = None | Some(value: T)

  /** `Err` stands for an exception raised by the source (ValueError, KeyError, ...). */
  datatype Result<+T, +E> = Ok(value: T) | Err(error: E)
}
