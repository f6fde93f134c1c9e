/** Optional values: how the model writes a property that may be `null` or missing. */
module Wrappers {

  /** Either nothing (`None`) or a value. */
  datatype Option<T> = None | Some(value: T) {

    /** The held value, or `fallback` when there is none. */
    function ValueOr(fallback: T): T {
      if Some? then value else fallback
    }
  }
}
