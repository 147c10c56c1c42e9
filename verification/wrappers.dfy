/** The optional value used for a result that may not have been set yet and
    for a key that carries no label. */
module Wrappers {

  datatype Option<+T> = None | Some(value: T)
}
