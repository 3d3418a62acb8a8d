/** Optional values: `null` / `undefined` on the JavaScript side. */
module Options {

  datatype Option<+T> = None | Some(value: T) {

    /** `x || fallback` for a value whose present form is always truthy (an array). */
    function GetOr(fallback: T): T {
      match this
      case Some(v) => v
      case None => fallback
    }
  }
}
