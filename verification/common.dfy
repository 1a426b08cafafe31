/** Small failure-carrying datatypes shared by the other modules. */
module Common {

  /** A value that may be absent. */
  datatype Option<+T> = None | Some(value: T)

  /** The outcome of a call into a collaborator the model cannot see
      (the chat client, the call object): it either returns a value or throws. */
  datatype Attempt<+T> = Returned(value: T) | Threw
}
