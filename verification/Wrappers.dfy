// Result types and facts about finite sets shared by the models.
module Wrappers {

  /** A value that may be missing: Python's `None` or a value. */
  datatype Option<+T> = None | Some(value: T)

  /** The outcome of an operation that may be refused. */
  datatype Result<+T, +E> = Ok(value: T) | Err(error: E)

  /** Some element of a non-empty set. */
  ghost function Pick<X>(s: set<X>): (x: X)
    requires |s| > 0
    ensures x in s
  {
    var x :| x in s; x
  }

  lemma {:induction false} SubsetSize<X>(a: set<X>, b: set<X>)
    requires a <= b
    ensures |a| <= |b|
  {
    if |a| > 0 {
      var x := Pick(a);
      SubsetSize(a - {x}, b - {x});
    }
  }
}
