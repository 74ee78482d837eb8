/** The `T | null` values of the application, as an explicit option type. */
module Wrappers {

  datatype Option<+T> = None | Some(value: T)
}
