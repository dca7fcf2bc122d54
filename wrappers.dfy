/** Optional values, used for the optional customization overlay and for
    decoders that can fail. */
module Wrappers {
  datatype Option<+T> = None | Some(value: T)
}
