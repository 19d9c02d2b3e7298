/** The optional value used for Python's `None`-or-value results and for
    pandas' coercion to "not a time". */
module Wrappers {
  datatype Option<+T> = None | Some(value: T)
}
