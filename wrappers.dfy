/** Optional values: the model's stand-in for a JavaScript property that may be missing. */
module Wrappers {

  datatype Option<+T> = None | Some(value: T)
}
