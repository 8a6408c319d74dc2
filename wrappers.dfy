/** Explicit success/failure results, used wherever the modelled code returns a
    sentinel value or throws an exception. */
module Wrappers {

  datatype Option<+T> = None | Some(value: T)

  datatype Result<+T, +E> = Ok(value: T) | Err(error: E)
}
