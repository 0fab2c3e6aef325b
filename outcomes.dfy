/** Option and Result values used by both interpreters in place of the
    Python exceptions and `None` returns. */
module Outcomes {

  datatype Option<+T> = None | Some(value: T)

  datatype Result<+T, +E> = Ok(value: T) | Err(error: E)
}
