/** The ways the page script can fail, and the values that carry a failure. */
module Outcomes {

  /** A JavaScript TypeError raised by the script, named by where it comes from. */
  datatype Fault =
    | PhoneNotTenDigits   // the phone regex did not match, so `pn[1]` reads a property of null
    | BirthdayNotIsoDate  // the date regex did not match, so `dob[1]` reads a property of null
    | NoLastChild         // `document.body.lastElementChild` is null, so `.remove()` fails

  /** The value of an expression that may throw. */
  datatype Result<+T> = Ok(value: T) | Err(fault: Fault)

  /** How a statement that may throw ends. */
  datatype Outcome = Completed | Threw(fault: Fault)
}
