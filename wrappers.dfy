/** Optional values: JavaScript's `undefined` / absent property. */
module Wrappers {
  datatype Option<T> = None | Some(value: T)
  {
    /** `x ?? d` */
    function GetOr(d: T): T
    {
      if Some? then value else d
    }
  }
}
