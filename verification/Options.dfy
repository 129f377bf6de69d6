/** The optional value used for NULL slots and for lookups that may find nothing, and an
    equality for collections. */
module Options {
  datatype Option<+T> = None | Some(value: T)

  /** The entry of `m` at `k`, or None. */
  function Lookup<K, V>(m: map<K, V>, k: K): Option<V> {
    if k in m then Some(m[k]) else None
  }

  /** Equality of two values of an unknown type.  Invariants and lemmas that carry a
      sequence or multiset along use it where the two sides are equal step by step, so that
      they need not be compared element by element. */
  predicate Same<T(==)>(a: T, b: T) {
    a == b
  }
}
