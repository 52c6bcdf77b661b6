/** The optional-value type used for absent keys, missing response fields
    and library calls that throw. */
module Wrappers {

  datatype Option<+T> = None | Some(value: T)
}
