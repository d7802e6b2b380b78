/** Optional values and results with an error, standing for JavaScript's
    `undefined`/`null` and for a rejected promise. */
module Wrappers {
  datatype Option<T> = None | Some(value: T)

  datatype Result<T, E> = Ok(value: T) | Err(error: E)
}
