/** Optional values and outcomes that carry an error. */
module Wrappers {
  datatype Option<+T> = None | Some(value: T)

  datatype Result<+T, +E> = Ok(value: T) | Err(error: E)

  function Get<K, V>(m: map<K, V>, k: K): Option<V> {
    if k in m then Some(m[k]) else None
  }

  function Put<K, V>(m: map<K, V>, k: K, v: Option<V>): map<K, V> {
    if v.Some? then m[k := v.value] else m - {k}
  }

  lemma PutGet<K, V>(m: map<K, V>, k: K, v: Option<V>, j: K)
    ensures Get(Put(m, k, v), j) == if j == k then v else Get(m, j)
  {
  }
}
