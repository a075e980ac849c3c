/** The optional-value type used where the dashboard's computation can come
    up with nothing: a missing category, an empty view's mean or mode. */
module Wrappers {

  datatype Option<+T> = None | Some(value: T)
}
