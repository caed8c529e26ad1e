/** The optional-value datatype used throughout the model: an absent
    JavaScript property or argument is `None`. */
module Wrappers {

  datatype Option<+T> = None | Some(value: T)
}
