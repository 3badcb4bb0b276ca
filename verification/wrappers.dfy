/** Optional values: the model's stand-in for a TypeScript field declared with `?`. */
module Wrappers {

  datatype Option<+T> = None | Some(value: T)
}
