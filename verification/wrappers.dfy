/** Failure-compatible wrappers shared by every module of the model.

 - Option<T>: a value that may be absent (Python `None`, a missing key, a null column).
 - Outcome<T>: what a request handler answers. The HTTP layer of the system is reduced
   to the four statuses its handlers produce on purpose; the catch-all 500 handlers
   are not part of the model.
 */
module Wrappers {

  datatype Option<+T> = None | Some(value: T) {

    /** Returns the value or a default when absent (Python `d.get(k, default)`). */
    function GetOr(default: T): T {
      match this
      case Some(v) => v
      case None => default
    }
  }

  /** The outcome of a request handler: a payload on success, otherwise the status. */
  datatype Outcome<+T> = Ok(value: T) | Forbidden | NotFound | BadRequest {

    predicate IsFailure() {
      !Ok?
    }
  }
}
