/** The optional value that a registry lookup returns: `None` stands for `undefined`. */
module Wrappers {

  datatype Option<+T> = None | Some(value: T)
}
