/** The optional value used wherever the JavaScript source has a field or
    variable that is either set or `null`/`undefined`/`false`. */
module Wrappers {

  datatype Option<T> = None | Some(value: T)

}
