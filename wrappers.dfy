/** Optional values: an option that was not given on the command line is `None`. */
module Wrappers {

  datatype Option<+T> = None | Some(value: T)
}
