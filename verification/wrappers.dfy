/** The optional-value datatype the rest of the model uses for lookups that
    can come back empty. */
module Wrappers {

  datatype Option<+T> = None | Some(value: T)
}
