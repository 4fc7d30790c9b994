/** Optional values, results with an error and content hashes. */
module Wrappers {
  datatype Option<+T> = None | Some(value: T)

  datatype Result<+T, +E> = Ok(value: T) | Err(error: E)

  /** A content hash without collisions. */
  datatype Digest<+T> = Sha256(content: T)
}
