/** Option and Result, used wherever the source signals failure by a
    NULL pointer, a FALSE return or a raised exception. */
module Wrappers {
  datatype Option<T> = None | Some(value: T)

  datatype Result<T, E> = Ok(value: T) | Err(error: E)
}
