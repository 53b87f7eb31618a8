/** Optional values, standing for the screens' `null` / `undefined`. */
module Wrappers {

  datatype Option<T> = None | Some(value: T)
}
