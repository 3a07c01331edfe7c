/** Value wrappers shared by the model: Python's `dict.get(key, default)`
    (an optional value) and the answer of an external call that may raise. */
module Outcomes {

  datatype Option<+T> = None | Some(value: T) {
    /** `d.get(key, default)` */
    function GetOr(fallback: T): T
    {
      match this
      case Some(v) => v
      case None => fallback
    }
  }

  /** What a call into an external service did: it raised an exception, or it
      returned a value. */
  datatype Reply<+T> = Raised | Returned(value: T)
}
