/** Optional values, and the result of a computation that may raise. */
module Wrappers {

  datatype Option<+T> = None | Some(value: T) {
    function GetOr(default: T): T {
      match this
      case Some(v) => v
      case None => default
    }
  }

  /** `Fault` stands for an exception leaving the call: the caller gets no value. */
  datatype Result<+T> = Success(value: T) | Fault {
    predicate IsFailure() {
      Fault?
    }

    function PropagateFailure<U>(): Result<U>
      requires Fault?
    {
      Fault
    }

    function Extract(): T
      requires Success?
    {
      value
    }
  }
}
