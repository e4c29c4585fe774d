/** Optional values, and the outcome of a step that may panic (`unwrap` on
    `None`, an arithmetic overflow in a checked build). */
module Outcomes {

  datatype Option<T> = None | Some(value: T)

  datatype Result<T> = Ok(value: T) | Panic(message: string)
}
