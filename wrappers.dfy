/** Optional values: the model's stand-in for a missing Map entry and for a
    promise that has not resolved yet. */
module Wrappers {
  datatype Option<+T> = None | Some(value: T)
}
