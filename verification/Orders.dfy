/** What the containers and the sort demand of a comparator. */
module Orders {

  /** The outcome of a check that a contract should treat as one fact. A predicate would be taken
      apart by the verifier at every call; a function with this result is not. */
  datatype Check = Ok | Broken

  /** A strict weak order: irreflexive, transitive, and with transitive incomparability. */
  ghost predicate StrictWeakOrder<T(!new)>(less: (T, T) -> bool) {
    && (forall x :: !less(x, x))
    && (forall x, y, z :: less(x, y) && less(y, z) ==> less(x, z))
    && (forall x, y, z :: less(x, z) ==> less(x, y) || less(y, z))
  }

  predicate Equivalent<T>(less: (T, T) -> bool, x: T, y: T) {
    !less(x, y) && !less(y, x)
  }
}
