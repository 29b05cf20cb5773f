/** The optional-value datatype the model uses for Python's `None` and for absent data. */
module Wrappers {

  datatype Option<+T> = None | Some(value: T)
}
