/** The optional value used where the source holds a possibly-null pointer
    or a possibly-unset iterator. */
module Wrappers {

  datatype Option<+T> = None | Some(value: T)

}
