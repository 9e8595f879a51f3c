/** What several modules share. */
module Basics {

  datatype Option<T> = None | Some(value: T)

  lemma MulMonotone(a: nat, b: nat, c: nat)
    requires a <= b
    ensures a * c <= b * c
  {
  }
}
