/** The optional value returned by the lookups of the mapping and inode trees. */
module Wrappers {

  datatype Option<+T> = None | Some(value: T)

}
