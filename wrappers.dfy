/** Option and Result values, used for the selector's missing keys and raised errors. */
module Wrappers {

  datatype Option<+T> = None | Some(value: T)

  /** Either a value or the error the source raises instead of returning. */
  datatype Result<+R, +E> = Ok(value: R) | Err(error: E)
}
