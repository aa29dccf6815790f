/**
 * Outcomes shared by every controller: an optional value, the error kinds the
 * handlers pass to `next(appError(...))`, and a result carrying one or the other.
 */
module Errors {

  datatype Option<+T> = None | Some(value: T) {
    function GetOr(default: T): T {
      match this
      case Some(v) => v
      case None => default
    }
  }

  /** The error kinds a handler can report. */
  datatype Error =
    | FieldFailed        // apiMessage.FIELD_FAILED: a required request field is missing or empty
    | DataNotFound       // apiMessage.DATA_NOT_FOUND: the store has no such document
    | SelfFollow         // 400 "cannot follow yourself"
    | AlreadyFollowing   // 400 "already following"; also what a follow with a missing actor reports
    | AlreadyUnfollowed  // 400 "already unfollowed"; reported only when the actor's record is missing
    | NameTooShort       // 400 "nickname needs at least 2 characters"
    | RuntimeFault       // a TypeError thrown inside the handler, forwarded to `next` by catchAsync

  datatype Result<+T> = Ok(value: T) | Err(error: Error)
}
