/** Optional values and results with an error, used where the program has
    `undefined`, a missing GraphQL object or a thrown error. */
module Wrappers {

  datatype Option<+T> = None | Some(value: T)

  datatype Result<+T, +E> = Ok(value: T) | Err(error: E)
}
