/** Shared result types: Go's `(value, error)` pairs and optional pointers. */
module Prelude {

  type byte = b: int | 0 <= b < 256

  type Bytes = seq<byte>

  datatype Option<+T> = None | Some(value: T)

  /** The error text of the source is never inspected, so `Err` carries nothing. */
  datatype Result<+T> = Ok(value: T) | Err

  /** A one-to-one map: no value is stored under two keys. */
  ghost predicate Injective<K, V>(m: map<K, V>) {
    forall k, k' | k in m && k' in m && m[k] == m[k'] :: k == k'
  }

  /** No element is listed twice. */
  ghost predicate Distinct<T>(s: seq<T>) {
    forall i, j | 0 <= i < j < |s| :: s[i] != s[j]
  }
}
