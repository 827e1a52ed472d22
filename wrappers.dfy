/** The optional values of the model: an absent filter is `None`. */
module Wrappers {
  datatype Option<+T> = None | Some(value: T)
}
