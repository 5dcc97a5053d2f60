/** Option and Result types shared by the plan matcher and the chat responder. */
module Wrappers {

  datatype Option<+T> = None | Some(value: T)

  /** The outcome of an endpoint: a reply, or one of the endpoint's error replies. */
  datatype Result<+R, +E> = Success(value: R) | Failure(error: E)
}
