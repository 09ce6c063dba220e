/** What several of the models share. */
module Basics {
  datatype Option<+T> = None | Some(value: T)

  function Abs(x: real): real {
    if x < 0.0 then -x else x
  }

  lemma AbsOfProduct(a: real, b: real, p: real)
    requires p == a * b
    ensures Abs(p) == Abs(a) * Abs(b)
  {}
}
