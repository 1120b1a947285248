/** Shapes that several models return. */
module Wrappers {
  datatype Option<+T> = None | Some(value: T)

  /** What one turn of a decoding loop comes to. */
  datatype Progress = More | Done | Bad
}
