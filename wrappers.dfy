/** Optional values, used for table slots that hold no handle and for errors. */
module Wrappers {

  datatype Option<+T> = None | Some(value: T)

}
