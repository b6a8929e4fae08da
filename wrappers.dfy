/** The optional value that the chunk list's queries and removals return. */
module Wrappers {
  datatype Option<+T> = None | Some(value: T)
}
