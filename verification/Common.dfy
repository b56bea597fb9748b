/** What several modules need. */
module Common {
  datatype Option<+T> = None | Some(value: T)

  /** Of two different values one comes first, and the order is transitive. */
  ghost predicate StrictOrder<T(!new)>(less: (T, T) -> bool) {
    && (forall x :: !less(x, x))
    && (forall x, y :: less(x, y) || less(y, x) || x == y)
    && (forall x, y, z :: less(x, y) && less(y, z) ==> less(x, z))
  }
}
