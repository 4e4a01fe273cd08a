/** Small shared datatypes. */
module Wrappers {

  /** A value that may be absent, as `std::string::npos` or a missing map entry. */
  datatype Option<T> = None | Some(value: T)
}
