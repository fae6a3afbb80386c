/** Optional values and results, standing for Java's nullable references and thrown exceptions. */
module Wrappers {

  /** `None` stands for a Java `null`. */
  datatype Option<+T> = None | Some(value: T)

  /** `Failure` stands for an exception that leaves the call. */
  datatype Result<+R, +E> = Success(value: R) | Failure(error: E)

  /** `Map.get`: the value bound to `k`, or `null` when `k` is unbound. */
  function Get<K, V>(m: map<K, V>, k: K): (r: Option<V>)
    ensures r.Some? <==> k in m
    ensures r.Some? ==> r.value == m[k]
  {
    if k in m then Some(m[k]) else None
  }
}
