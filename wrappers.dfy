/** Optional values and error results, as the analysis pipeline returns them. */
module Wrappers {

  datatype Option<+T> = None | Some(value: T)

  /** A value, or the message of the JavaScript error that replaced it. */
  datatype Result<+T> = Ok(value: T) | Err(message: string)
}
