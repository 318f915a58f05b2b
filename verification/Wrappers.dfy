module Wrappers {
  datatype Option<+T> = None | Some(value: T)

  /** Some element of a set, to show that there is one to choose. */
  lemma Member<T>(s: set<T>) returns (k: T)
    requires s != {}
    ensures k in s
  {
    k :| k in s;
  }
}
