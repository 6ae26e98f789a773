/** The optional-value datatype the scripts' `None` results map to. */
module Wrappers {
  datatype Option<T> = None | Some(value: T)
}
