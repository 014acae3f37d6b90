/** Optional values, used wherever the modelled code either yields a value or raises. */
module Wrappers {

  datatype Option<+T> = None | Some(value: T)
}
