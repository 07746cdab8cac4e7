/** Optional values: the model's stand-in for a JavaScript value that may be
    `undefined` or `null`. */
module Wrappers {

  datatype Option<+T> = None | Some(value: T) {

    /** The value, or `default` when there is none (JavaScript's `v || default`
        for values that are never falsy when present). */
    function GetOr(default: T): (r: T)
      ensures Some? ==> r == value
      ensures None? ==> r == default
    {
      match this
      case Some(v) => v
      case None => default
    }
  }

  /** A string option is truthy in JavaScript when it is present and not "". */
  predicate Present(o: Option<string>) {
    o.Some? && o.value != ""
  }
}
