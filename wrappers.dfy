/** The optional value used wherever a lookup or a pattern match may find nothing. */
module Wrappers {
  datatype Option<+T> = None | Some(value: T)
}
