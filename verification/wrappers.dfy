/** Wrappers shared by the viewer model: an optional value
    (a JSON field that may be absent, a JavaScript `null`) and a result that
    is either a value or an error. */
module Wrappers {

  datatype Option<+T> = None | Some(value: T)

  datatype Result<+R, +E> = Success(value: R) | Failure(error: E)
}
