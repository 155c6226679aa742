/** The optional-value datatype shared by every module of the model. */
module Wrappers {

  /** A value that may be absent; JavaScript's `undefined`/`null` and
      "element not found" are all modelled as `None`. */
  datatype Option<+T> = None | Some(value: T) {

    /** `None` is the failure case of `:-`. */
    predicate IsFailure() {
      None?
    }

    /** Carries a failure on to another value type. */
    function PropagateFailure<U>(): Option<U>
      requires None?
    {
      None
    }

    /** The wrapped value. */
    function Extract(): T
      requires Some?
    {
      value
    }

    /** The wrapped value, or `default` when absent. */
    function GetOr(default: T): T {
      match this
      case Some(v) => v
      case None => default
    }
  }
}
