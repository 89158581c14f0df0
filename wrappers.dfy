/** The optional value used for absent syntax-tree fields and absent edge labels. */
module Wrappers {
  datatype Option<+T> = None | Some(value: T)
}
