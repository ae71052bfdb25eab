/** Optional values and results with an error payload, used for the JavaScript
    `null`/`undefined` returns and the thrown errors of the modelled code. */
module Wrappers {
  datatype Option<+T> = None | Some(value: T) {
    predicate IsSome() { Some? }

    function GetOr(default: T): T {
      match this
      case Some(v) => v
      case None => default
    }
  }

  datatype Result<+R, +E> = Success(value: R) | Failure(error: E) {
    predicate IsSuccess() { Success? }
  }
}
