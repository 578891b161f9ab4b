/** Nullable values, and a device that keeps proofs short. */
module Basics {
  /**
    Always true.  A definition of the form `forall k :: Key(k) ==> ...` is
    unfolded only in proofs that mention the key, and can otherwise be passed
    on as a whole.
  */
  predicate Key(k: int) {
    true
  }

  /** Another key, for definitions that are made up of definitions under the first. */
  predicate OuterKey(k: int) {
    true
  }

  datatype Maybe<+T> = Nothing | Just(value: T)

  lemma AddedAndRemoved<K, V>(m: map<K, V>, k: K, v: V)
    requires k !in m
    ensures m[k := v] - {k} == m
  {
  }
}
