/** A minimal optional-value wrapper. */
module Wrappers {

  datatype Option<+T> = None | Some(value: T)
}
