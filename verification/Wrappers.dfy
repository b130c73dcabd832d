// Failure-carrying results shared by every module of the model.
module Wrappers {

  datatype Option<+T> = None | Some(value: T)

  datatype Result<+T, +E> = Ok(value: T) | Err(error: E)

  // What a write to the document database did: it may report an error and still have taken effect.
  datatype WriteOutcome = Done | FailedUnapplied | FailedApplied {
    predicate Applied() {
      this != FailedUnapplied
    }
  }
}
