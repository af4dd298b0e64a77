/** Values shared by every module: an optional value, and the three ways a call of the original can end. */
module Outcomes {

  datatype Option<+T> = None | Some(value: T)

  /** A refusal of the domain: the machine-readable code is what callers tell refusals apart by. */
  datatype Error = Error(code: string)

  /** A call returns a value, refuses with a domain error, or throws something nobody in the call catches. */
  datatype Attempt<+T> = Value(value: T) | Refused(error: Error) | Thrown
}
