/** Definitions shared by the other modules. */
module Basics {
  datatype Option<+T> = None | Some(value: T)

  /** Some element of a set: the iteration order of a hash set is arbitrary. */
  method Pick<T(==)>(s: set<T>) returns (x: T)
    requires s != {}
    ensures x in s
  {
    x :| x in s;
  }
}
