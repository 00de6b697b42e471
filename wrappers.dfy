// Optional values, for the source's null / NaN / "not found" results.

module Wrappers {

  datatype Option<T> = None | Some(value: T)
}
