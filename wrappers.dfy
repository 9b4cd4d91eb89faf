/** Failure-carrying results: `Option` for the parser's "skip this line"
    outcome, `Result` for operations that raise an exception in the source. */
module Wrappers {

  datatype Option<+T> = None | Some(value: T)

  datatype Result<+R, +E> = Ok(value: R) | Err(error: E)
}
