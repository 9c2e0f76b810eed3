/** Failure-carrying wrappers shared by every part of the booking model. */
module Common {

  /** A value that may be absent: an omitted request field or an unset custom field. */
  datatype Option<+T> = None | Some(value: T) {

    /** The carried value, or `default` when absent (a JavaScript parameter default). */
    function GetOr(default: T): T {
      match this
      case Some(v) => v
      case None => default
    }
  }

  /** The failures a booking operation reports to its caller. */
  datatype BookingError =
    | ValidationError   // a required request field is missing or falsy
    | NotFound          // the booking id is unknown to the calendar
    | SlotUnavailable   // the requested interval conflicts with an existing event

  datatype Result<+T> = Ok(value: T) | Err(error: BookingError)
}
