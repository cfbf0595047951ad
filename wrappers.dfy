/** The optional value used wherever the source has `undefined`, or a reply that did not arrive. */
module Wrappers {
  datatype Option<+T> = None | Some(value: T)
}
