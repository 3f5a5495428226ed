/** Optional values, shared by the modules that model defaulted or absent arguments. */
module Wrappers {

  datatype Option<+T> = None | Some(value: T) {
    /** The value, or the default a JavaScript default parameter would supply. */
    function GetOr(default: T): T
    {
      match this
      case Some(v) => v
      case None => default
    }
  }
}
