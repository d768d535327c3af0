/** Optional values shared by every module of the model. */
module Wrappers {

  /** A value that may be missing (Python `None`, a pandas NaN/NA read as "absent"). */
  datatype Option<+T> = None | Some(value: T)
}
