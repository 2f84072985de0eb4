/** The optional value used throughout the model (boost::optional in the source). */
module Wrappers {
  datatype Option<+T> = None | Some(value: T)
}
