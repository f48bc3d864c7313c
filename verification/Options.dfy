/** A value that may be missing, and a call that may not return. */
module Options {

  datatype Option<+T> = None | Some(value: T) {
    predicate IsFailure() { None? }

    function PropagateFailure<U>(): Option<U>
      requires None?
    {
      None
    }

    function Extract(): T
      requires Some?
    {
      value
    }
  }

  /** How a call ends. */
  datatype Ending<+T> = Returned(value: T) | Panicked
}
