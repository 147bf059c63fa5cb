/** The optional value used wherever the app works with "a value or nothing":
    the result of `Array.prototype.find`, a component state field that may be `null`. */
module Wrappers {

  datatype Option<+T> = None | Some(value: T)

}
