/** What several models share: an optional value, times, URLs, and the size of a subset. */
module Basics {

  datatype Option<T> = None | Some(value: T)

  /** Seconds; 0 is Go's zero time. */
  type Time = nat

  type Url = string

  /** An IPv4 address as a number; only equality matters where this type is used. */
  type Ipv4 = nat

  lemma {:induction false} SubsetSize<T>(a: set<T>, b: set<T>)
    requires a <= b
    ensures |a| <= |b|
  {
    if a != {} {
      var x :| x in a;
      SubsetSize(a - {x}, b - {x});
    }
  }
}
