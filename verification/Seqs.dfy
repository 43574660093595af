/** Small facts about sequences used by several modules. */
module Seqs {

  datatype Option<+T> = None | Some(value: T)

  ghost predicate NoDup<T>(xs: seq<T>) {
    forall i, j :: 0 <= i < j < |xs| ==> xs[i] != xs[j]
  }

  /** xs without the element at position k. */
  function DropAt<T>(xs: seq<T>, k: nat): (ys: seq<T>)
    requires k < |xs|
  {
    xs[..k] + xs[k + 1..]
  }

  /** Position of the first occurrence of x. */
  function IndexOf<T(==)>(xs: seq<T>, x: T): (k: nat)
    requires x in xs
    ensures k < |xs| && xs[k] == x && forall i :: 0 <= i < k ==> xs[i] != x
  {
    if xs[0] == x then 0 else IndexOf(xs[1..], x) + 1
  }

  /** xs without the first occurrence of x. */
  function Remove<T(==)>(xs: seq<T>, x: T): seq<T> {
    if x in xs then DropAt(xs, IndexOf(xs, x)) else xs
  }

  lemma RemoveNoDup<T>(xs: seq<T>, x: T)
    requires NoDup(xs) && x in xs
    ensures NoDup(Remove(xs, x)) && |Remove(xs, x)| == |xs| - 1
    ensures forall y :: y in Remove(xs, x) <==> y in xs && y != x
  {
    var k := IndexOf(xs, x);
    var ys := Remove(xs, x);
    forall y | y in xs && y != x
      ensures y in ys
    {
      var j :| 0 <= j < |xs| && xs[j] == y;
      assert y == if j < k then ys[j] else ys[j - 1];
    }
  }
}
