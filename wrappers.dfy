/** The optional value used wherever the JavaScript code tests a value for being present
    (a regular-expression match that may be null, an index that may be missing). */
module Wrappers {

  datatype Option<+T> = None | Some(value: T)
}
