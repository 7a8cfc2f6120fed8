/** Values shared by every component: optional values, the outcome of a
    service call, the error kinds the services raise, and the one
    authorization rule they all apply. */
module Common {

  datatype Option<+T> = None | Some(value: T) {
    function GetOr(default: T): T {
      match this
      case Some(v) => v
      case None => default
    }
  }

  /** The four exceptions the application services throw. */
  datatype Error =
    | InvalidValue        // a status or metric outside its vocabulary
    | DuplicateResource   // a uniqueness rule checked before the write
    | NotFound            // the referenced id is absent
    | Security            // found, but the caller is neither owner nor admin

  /** A service call either returns a value or throws one of the errors above. */
  datatype Result<+T> = Success(value: T) | Failure(error: Error)

  /** The owner/admin gate every read, update and delete applies:
      the caller passes when it holds the admin role or owns the resource. */
  predicate Allowed(username: string, isAdmin: bool, owner: string)
  {
    isAdmin || owner == username
  }
}
