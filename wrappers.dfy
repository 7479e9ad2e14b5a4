/** Option and Result, used for the gateway's answers: a failed chain call
    becomes None (balance lookups) or Failure (log queries). */
module Wrappers {

  datatype Option<+T> = None | Some(value: T)

  datatype Result<+R, +E> = Success(value: R) | Failure(error: E)
}
