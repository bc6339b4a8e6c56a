/** Results of operations that may be absent or may throw. */
module Wrappers {

  datatype Option<+T> = None | Some(value: T)

  /** A C++ call either returns a value or leaves by an exception. */
  datatype Outcome<+T> = Returned(value: T) | Threw {
    predicate IsFailure() {
      Threw?
    }

    function PropagateFailure<U>(): Outcome<U>
      requires Threw?
    {
      Threw
    }

    function Extract(): T
      requires Returned?
    {
      value
    }
  }
}
