/** The optional value used wherever the interpreter may find nothing
    (a regular-expression match, a host evaluation that raised). */
module Wrappers {

  datatype Option<+T> = None | Some(value: T)
}
