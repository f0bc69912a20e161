/** Optional values and error results shared by the other modules. */
module Wrappers {

  datatype Option<+T> = None | Some(value: T)

  /** The error conditions the modelled code raises. */
  datatype Error = NotFound(selector: string)

  datatype Result<+R> = Ok(value: R) | Err(error: Error)
}
