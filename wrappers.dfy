/** Optional values, and the outcome of a step that either yields a value or
    raises an exception carrying a message (Python's `raise Exception(msg)`). */
module Wrappers {

  datatype Option<+T> = None | Some(value: T)

  datatype Result<+T> = Ok(value: T) | Raised(message: string)
}
