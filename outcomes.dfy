/** Results of the service operations: a value, or one of the two HTTP error
    kinds the services raise (NOT_FOUND, BAD_REQUEST), each with the message
    the service attaches to its exception. */
module Outcomes {

  datatype Outcome<T> = Ok(value: T) | NotFound(msg: string) | BadRequest(msg: string)

  /** An optional argument (a query parameter that may be absent). */
  datatype Option<T> = None | Some(value: T)
}
