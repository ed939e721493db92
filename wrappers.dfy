/** Small failure-carrying datatypes shared by the other modules. */
module Wrappers {

  datatype Option<+T> = None | Some(value: T)

  /** The outcome of a request handler: either it ran to its end, or it
      stopped on a missing row (a property read on `null`). */
  datatype Outcome<+T> = Done(value: T) | NotFound

  /** A set that is not empty has an element (for `:|` over a set). */
  lemma Inhabited<T>(s: set<T>)
    requires s != {}
    ensures exists x :: x in s
  {
    if forall y :: y !in s {
      assert false;
    }
  }

  /** Some element of a set that is not empty. */
  method Choose<T>(s: set<T>) returns (x: T)
    requires s != {}
    ensures x in s
  {
    Inhabited(s);
    x :| x in s;
  }
}
