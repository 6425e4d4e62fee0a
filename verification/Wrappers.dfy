/** Results and optional values shared by the modules of the model. */
module Wrappers {
  datatype Option<+T> = None | Some(value: T)

  datatype Result<+T> = Ok(value: T) | Err(message: string)

  /** What an API call can do: take effect and say so, have no effect, or take effect
      although the caller sees an error. */
  datatype Outcome = Done | Refused | LostReply
}
