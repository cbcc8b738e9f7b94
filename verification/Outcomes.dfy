/** Result and option types shared by every module of the model. */
module Outcomes {

  datatype Option<+T> = None | Some(value: T)

  /** A Python call that either returns or raises; `reason` stands for the exception. */
  datatype Result<+T> = Ok(value: T) | Err(reason: string) {
    predicate IsFailure() {
      Err?
    }

    function PropagateFailure<U>(): Result<U>
      requires Err?
    {
      Err(reason)
    }

    function Extract(): T
      requires Ok?
    {
      value
    }
  }
}
