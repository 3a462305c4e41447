/** An optional value: what a key-value store returns for a key that may be absent. */
module Wrappers {

  datatype Option<+T> = None | Some(value: T) {

    /** The wrapped value, or `default` when there is none. */
    function GetOr(default: T): (r: T)
    {
      match this
      case Some(v) => v
      case None => default
    }
  }
}
