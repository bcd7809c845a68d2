/** Optional values: the model's stand-in for a missing dict key or a call that raised. */
module Wrappers {

  datatype Option<+T> = None | Some(value: T) {

    /** The wrapped value, or `default` when there is none (Python's `dict.get(key, default)`). */
    function GetOr(default: T): T {
      match this
      case Some(v) => v
      case None => default
    }
  }
}

/** Octets, as `bytes` objects hold them. */
module Bytes {

  type Byte = b: int | 0 <= b < 256
}
