/** Option stands for a Go reference (`*T`) that may be nil and for a result that may be missing. */
module Wrappers {

  datatype Option<+T> = None | Some(value: T)
}
