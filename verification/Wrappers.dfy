/** The two result shapes the modelled code uses for "nothing here" and "refused with a reason". */
module Wrappers {
  datatype Option<+T> = None | Some(value: T)

  datatype Result<+T, +E> = Ok(value: T) | Err(error: E)
}
