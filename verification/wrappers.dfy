/** Failure-carrying values shared by every part of the conference API model:
    an optional value, the API's error taxonomy and a result that is either
    a value or one of those errors. */
module Wrappers {

  /** A value that may be absent (Python's `None`). */
  datatype Option<+T> = None | Some(value: T) {

    /** The value if present, otherwise `default`. */
    function GetOr(default: T): T {
      match this
      case Some(v) => v
      case None => default
    }
  }

  /** Why a request was refused as malformed. */
  datatype BadRequestReason =
    | InvalidFieldOrOperator   // a filter names a field or operator outside the tables
    | InequalityOnOneField     // two different fields carry a non-"=" operator
    | NameRequired             // a conference is created without a name

  /** Why a registration was refused. */
  datatype ConflictReason =
    | AlreadyRegistered
    | NoSeatsAvailable

  /** The failures an API call can end in. */
  datatype ApiError =
    | Unauthorized                    // no signed-in user
    | NotFound(key: string)           // no conference under the given websafe key
    | BadRequest(badRequest: BadRequestReason)
    | Conflict(conflict: ConflictReason)
    | ValueError(text: string)        // `int(text)` failed and the exception escaped

  /** Either the value an operation computes or the error it raises. */
  datatype Result<+T> = Ok(value: T) | Err(error: ApiError)
}
