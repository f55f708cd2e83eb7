/** Optional values: an absent cookie, an absent environment variable, a failed parse. */
module Wrappers {
  datatype Option<+T> = None | Some(value: T)
}
