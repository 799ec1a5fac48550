/** Shared vocabulary: optional values, results, errors, request fields and
    the environment (clock and id syntax) that every operation receives. */
module Base {

  datatype Option<+T> = None | Some(value: T)

  /** A document id, as the text of a Mongo ObjectId. */
  type Id = string

  /** A point in time, in milliseconds (a JavaScript Date). */
  type Time = int

  /** Why a request was refused with HTTP 400. */
  datatype Reason =
    | MissingListingFields
    | InvalidUserId
    | InvalidItemType
    | InvalidWasteCategory
    | InvalidListingId
    | InvalidCollectorId
    | InvalidStatus
    | MissingSignupFields
    | InvalidUserType
    | UserExists
    | MissingSigninFields
    | InvalidCredentials

  /** The error responses: 400 with a reason, 404, and the generic 500. */
  datatype Error = BadRequest(reason: Reason) | NotFound | ServerError

  datatype Result<+T> = Ok(value: T) | Err(error: Error)

  /** What the operations take from outside: the current time, and the
      ObjectId syntax check, left uninterpreted. */
  datatype Env = Env(now: Time, isValidId: string -> bool)

  /** A string-typed field of a JSON request body: missing, explicit null,
      or a string. */
  datatype TextField = Absent | Null | Str(s: string) {

    /** JavaScript truthiness: only a non-empty string is truthy. */
    predicate Truthy() {
      Str? && |s| > 0
    }

    /** The value a schema path receives: undefined and null store nothing. */
    function Stored(): (r: Option<string>)
      ensures r.Some? <==> Str?
      ensures Str? ==> r.value == s
    {
      if Str? then Some(s) else None
    }
  }

  /** A number-typed field of a JSON request body. The value is opaque: the
      model does no arithmetic on it. */
  datatype NumberField = NoNumber | NullNumber | Number(x: real) {

    function Stored(): (r: Option<real>)
      ensures r.Some? <==> Number?
      ensures Number? ==> r.value == x
    {
      if Number? then Some(x) else None
    }
  }
}
