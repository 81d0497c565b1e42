/** Option and Result values standing for Java's nullable references and thrown exceptions. */
module Wrappers {

  /** A nullable Java reference: None is null. */
  datatype Option<+T> = None | Some(value: T) {
    function GetOr(default: T): T {
      match this
      case Some(v) => v
      case None => default
    }
  }

  /** The outcome of an operation that may throw: Failure carries the exception's message. */
  datatype Result<+R, +E> = Success(value: R) | Failure(error: E)

  /** A lookup in a Java Map: absent keys give null. */
  function Get<K, V>(m: map<K, V>, k: K): (r: Option<V>)
    ensures r.Some? <==> k in m
    ensures r.Some? ==> r.value == m[k]
  {
    if k in m then Some(m[k]) else None
  }
}
