/** Failure-carrying wrappers shared by every module: Rust's `Option`,
    `Result` and the unit-valued `Result<(), String>` of the commands. */
module Common {

  datatype Option<+T> = None | Some(value: T)

  datatype Result<+T, +E> = Ok(value: T) | Err(error: E)

  /** `Result<(), String>`: what a command or an environment call reports. */
  datatype Outcome = Pass | Fail(message: string)
}
