/** Failure-carrying values used in place of Java's null and exceptions. */
module Wrappers {

  /** A value that may be absent (Java's nullable reference). */
  datatype Option<+T> = None | Some(value: T)

  /** The outcome of an operation that may fail with an error value. */
  datatype Result<+T, +E> = Success(value: T) | Failure(error: E) {
    predicate IsFailure() {
      Failure?
    }

    function PropagateFailure<U>(): Result<U, E>
      requires Failure?
    {
      Failure(error)
    }

    function Extract(): T
      requires Success?
    {
      value
    }
  }

  /** Looks up a key in a map, as Java's Map.get, with None for a missing key. */
  function Get<K, V>(m: map<K, V>, k: K): (r: Option<V>)
    ensures r.Some? <==> k in m
    ensures r.Some? ==> r.value == m[k]
  {
    if k in m then Some(m[k]) else None
  }

  /** Two maps that agree on every lookup are equal. */
  lemma GetExtensional<K, V>(m1: map<K, V>, m2: map<K, V>)
    requires forall k :: Get(m1, k) == Get(m2, k)
    ensures m1 == m2
  {
    assert m1.Keys == m2.Keys by {
      forall k ensures k in m1 <==> k in m2 {
        assert Get(m1, k) == Get(m2, k);
      }
    }
    forall k | k in m1 ensures m1[k] == m2[k] {
      assert Get(m1, k) == Get(m2, k);
    }
  }
}
