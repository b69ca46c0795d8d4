/** Optional values and results with an error, used for the nullable fields
    of the store's records and for rejected requests. */
module Wrappers {

  datatype Option<+T> = None | Some(value: T)

  datatype Result<+T, +E> = Ok(value: T) | Err(error: E)
}
