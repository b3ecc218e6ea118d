/** Option and Result, used for the nullable form fields and upstream replies
    and for the outcome of each validation step of the route. */
module Wrappers {

  datatype Option<+T> = None | Some(value: T)

  /** A step that either produced a value or failed with an error message. */
  datatype Result<+T> = Success(value: T) | Failure(error: string)
}
