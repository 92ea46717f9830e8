/** The optional-value datatype the model uses for "element not found" and
    "no timer pending". */
module Wrappers {

  datatype Option<T> = None | Some(value: T)
}
