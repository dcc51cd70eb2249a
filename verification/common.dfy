/**
  Shared vocabulary of the job-tracker backend model: optional values, the
  error values the services raise, the result of a store operation, and the
  application status enumeration.
 */
module Common {

  /** Record identifiers. The database generates them; the model hands them
      out from a per-table counter. */
  type Id = nat

  datatype Option<+T> = None | Some(value: T) {
    function GetOr(default: T): T {
      match this
      case Some(v) => v
      case None => default
    }
  }

  /** Failures raised by the database layer rather than by the services. */
  datatype DbFailure =
    | MissingRequiredField(field: string)  // a create without a required column
    | RecordToUpdateNotFound               // an update whose `where` matches no row
    | UniqueEmailViolation                 // the unique index on users' email
    | InvalidValue(column: string)         // a value the column's type refuses

  /** A service either throws `new Error(message)` or lets a database error
      propagate. */
  datatype Error =
    | ServiceError(message: string)
    | DatabaseError(failure: DbFailure)

  const ApplicationNotFound: string := "Application not found"
  const UserAlreadyExists: string := "User with this email already exists"
  const UserNotFound: string := "User not found"
  const ApplicationDeleted: string := "Application deleted successfully"

  datatype Result<+T> = Ok(value: T) | Err(error: Error)

  /** The state of a store after an operation, together with what the
      operation returned or threw. */
  datatype Step<+S, +T> = Step(store: S, result: Result<T>)

  /** The eight values of the application status enumeration, in the order
      the request validator lists them. */
  const ApplicationStatuses: seq<string> :=
    ["SAVED", "APPLIED", "SCREENING", "INTERVIEW", "OFFER", "ACCEPTED", "REJECTED", "WITHDRAWN"]

  /** A value of the status column, whose type is the enumeration. */
  type Status = s: string | s in ApplicationStatuses witness "APPLIED"

  /** The status a new application gets when the payload names none. */
  const DefaultStatus: Status := "APPLIED"
}
