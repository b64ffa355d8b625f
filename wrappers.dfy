/** Optional values, used where the TypeScript code has `T | null`, `T | undefined`
    or an optional property. */
module Wrappers {

  datatype Option<+T> = None | Some(value: T) {

    /** These three let `:-` stop at the first `None`. */
    predicate IsFailure() {
      None?
    }

    function PropagateFailure<U>(): Option<U>
      requires None?
    {
      None
    }

    function Extract(): T
      requires Some?
    {
      value
    }

    /** The value, or `default` when absent: the `??` operator. */
    function GetOr(default: T): (r: T)
      ensures Some? ==> r == value
      ensures None? ==> r == default
    {
      match this
      case Some(v) => v
      case None => default
    }
  }
}
