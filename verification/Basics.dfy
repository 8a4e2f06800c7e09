/** What the other modules share: optional values and the sizes of sets. */
module Basics {

  datatype Option<T> = None | Some(value: T)

  lemma {:induction false} SubsetCard<T>(a: set<T>, b: set<T>)
    requires a <= b
    ensures |a| <= |b|
  {
    assert b == a + (b - a);
  }
}
