/**
 * The optional value every module shares: a search that may find nothing,
 * an ending that may not have been reached.
 */
module Wrappers {

  datatype Option<T> = None | Some(value: T)
}
