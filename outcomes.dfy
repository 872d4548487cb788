/** What one attempt of a Moodle app Behat step can end in, and small wrappers. */
module Outcomes {

  /** One attempt of a step either returns normally or throws one of the two
      Mink exceptions the step definitions use. */
  datatype Outcome =
    | Ok
    | DriverErr(msg: string)   // DriverException: the app did not answer as the protocol requires
    | ExpectErr(msg: string)   // ExpectationException: the app answered, but not as the step expects

  datatype Option<+T> = None | Some(value: T)

  /** A value computed by a step, or the message of the DriverException it throws instead. */
  datatype Result<+T> = Success(value: T) | Failure(msg: string)
}
