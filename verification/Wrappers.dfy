/** Option, used where the source returns npos, std::nullopt or an end iterator. */
module Wrappers {
  datatype Option<+T> = None | Some(value: T)
}
