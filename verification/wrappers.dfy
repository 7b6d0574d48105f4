// The optional value used wherever the program may produce nothing: an
// absent options field, or an input file that fails validation.
module Wrappers {

  datatype Option<+T> = None | Some(value: T)

}
