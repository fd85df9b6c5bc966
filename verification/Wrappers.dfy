/** The outcome types the other modules share. */
module Wrappers {

  /** A value that may be missing: Go's `(value, ok)` pairs and nil errors. */
  datatype Option<+T> = None | Some(value: T)

  /** What a mapping holds under a key. */
  function At<K, V>(m: map<K, V>, k: K): Option<V> {
    if k in m then Some(m[k]) else None
  }

  /** A value or the error returned instead of it. */
  datatype Result<+T, +E> = Ok(value: T) | Err(error: E)
}
