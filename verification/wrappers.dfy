/** The optional value used for fields a JSON request body may leave out. */
module Wrappers {

  /** `None` stands for a field that is absent (`undefined` in the request body). */
  datatype Option<+T> = None | Some(value: T) {

    /** The value when present, otherwise the default; this is how a destructuring
        default such as `{ currency = 'eur' }` behaves (it fires only on absence). */
    function GetOr(default: T): (r: T)
      ensures Some? ==> r == value
      ensures None? ==> r == default
    {
      match this
      case Some(v) => v
      case None => default
    }
  }
}
