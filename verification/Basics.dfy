/** What several parts of the model share. */
module Basics {

  datatype Option<+T> = None | Some(value: T)

  type Byte = x: nat | x < 256

  function Max(x: int, y: int): (r: int)
    ensures r >= x && r >= y && (r == x || r == y)
  {
    if x < y then y else x
  }

  lemma SubsetSize<T>(s: set<T>, t: set<T>)
    requires s <= t
    ensures |s| <= |t|
  {
    assert t == s + (t - s);
  }

  lemma SomeElement(s: set<int>)
    requires s != {}
    ensures exists x :: x in s
  {
    var e: set<int> := {};
    assert (forall x :: x in s <==> x in e) ==> s == e;
  }
}
