/**
 * The option and result shapes that stand for `undefined` and for a thrown error, and the
 * largest number that ECMAScript counts with exactly.
 */
module Wrappers {

  const MAX_SAFE_INTEGER := 0x1F_FFFF_FFFF_FFFF

  datatype Option<+T> = None | Some(value: T)

  datatype Result<+T, +E> = Ok(value: T) | Err(error: E)
}
