/** Optional values and results with an error message, for the source's
    `null` returns and thrown `Error`s. */
module Wrappers {

  datatype Option<+T> = None | Some(value: T)

  /** `Err(message)` stands for a thrown `Error` whose text is `message`. */
  datatype Result<+T> = Ok(value: T) | Err(message: string)
}
