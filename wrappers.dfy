// Small result types shared by the other modules.
module Wrappers {

  datatype Option<T> = None | Some(value: T)

  /** The outcome of an operation that the source can abort by throwing. */
  datatype Result<T> = Ok(value: T) | Err(error: string)
  {
    predicate IsFailure() { Err? }
  }
}
