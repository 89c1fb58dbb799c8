/** Shared vocabulary of the clinic-booking model: wrappers for optional values
    and error returns, the time constants every handler uses, and the identity
    of the caller as the session layer hands it to a route handler. */
module Common {

  datatype Option<+T> = None | Some(value: T)

  datatype Result<+T, +E> = Ok(value: T) | Err(error: E)

  /** Instants are integer milliseconds since 1970-01-01T00:00:00Z. */
  const MS_PER_MINUTE: int := 60_000
  const MS_PER_HOUR: int := 3_600_000
  const MS_PER_DAY: int := 86_400_000

  /** Japan Standard Time is UTC + 9 h; every route uses this one fixed shift. */
  const JST_OFFSET_MS: int := 9 * MS_PER_HOUR

  /** The card number that the routes treat as the clinic's staff account. */
  const STAFF_PATIENT_ID: string := "00001"

  /** Who is calling: no login session, a session whose LINE account has no
      patient record yet, or a registered patient (the record's database key and
      its five-digit card number). */
  datatype Caller =
    | NoSession
    | Unregistered
    | Registered(key: nat, patientId: string)

  /** checkAuthorization: a session whose patient record carries card number 00001. */
  predicate IsStaff(caller: Caller)
  {
    caller.Registered? && caller.patientId == STAFF_PATIENT_ID
  }
}
