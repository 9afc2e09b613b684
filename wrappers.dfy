/** Optional values and results with an error, used for Ruby's nil and raised errors. */
module Wrappers {

  datatype Option<+T> = None | Some(value: T)

  /** The errors the finder and persistence layer raise. */
  datatype Error = DocumentNotFound | DocumentNotValid

  datatype Result<+T> = Ok(value: T) | Failure(error: Error)
}
