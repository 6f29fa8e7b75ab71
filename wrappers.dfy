/** An optional value: the model's stand-in for a pandas cell that may be missing (NaN). */
module Wrappers {

  datatype Option<+T> = None | Some(value: T)

}
