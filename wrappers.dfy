/** The optional value used wherever the JavaScript source returns `null`. */
module Wrappers {

  datatype Option<+T> = None | Some(value: T)
}
