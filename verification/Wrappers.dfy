/** A value that may be absent, and the digest of some data. */
module Wrappers {
  datatype Option<T> = None | Some(value: T)

  /** A collision-free hash: a tag around the data it names. */
  datatype Hash<T> = Sha(data: T)
}
