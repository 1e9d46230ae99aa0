/** Optional values: the engine's answer to a read (found or not found). */
module Wrappers {

  datatype Option<+T> = None | Some(value: T)
}
