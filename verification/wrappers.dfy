/** The optional-value datatype used for flags that may be absent and for
    remote lookups that may fail. */
module Wrappers {

  /** Some value or nothing, as `undefined` is used in the importer. */
  datatype Option<+T> = None | Some(value: T) {

    /** The value, or `default` when there is none */
    function GetOr(default: T): T {
      match this
      case Some(v) => v
      case None => default
    }
  }
}
