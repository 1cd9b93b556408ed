/** Optional values: the model's stand-in for JavaScript's `undefined`/`null`. */
module Wrappers {

  datatype Option<+T> = None | Some(value: T)
}
