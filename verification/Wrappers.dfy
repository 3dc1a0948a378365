/** Optional values, the model of `std::optional` and of iterators that may be `end()`. */
module Wrappers {
  datatype Option<+T> = None | Some(value: T)

  /** A fact told as `forall u | Open(key, u) :: P` is kept closed: it is passed on as it is, and
      whoever needs its content asserts `Open(key, true)`. */
  ghost predicate Open<T>(key: T, u: bool) {
    true
  }
}
