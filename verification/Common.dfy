/**
 Small shared definitions.
 */
module Common {

  datatype Option<T> = None | Some(value: T)

  function Min(a: nat, b: nat): nat {
    if a < b then a else b
  }

  predicate Distinct<T(==)>(q: seq<T>) {
    forall i: nat, j: nat :: i < j < |q| ==> q[i] != q[j]
  }

  function RemoveAt<T>(q: seq<T>, i: nat): (r: seq<T>)
    requires i < |q|
    ensures |r| == |q| - 1
  {
    q[..i] + q[i + 1..]
  }

  /** The queue without its first occurrence of x. */
  function Without<T(==)>(q: seq<T>, x: T): (r: seq<T>)
    ensures x !in q ==> r == q
    ensures x in q ==> |r| == |q| - 1
  {
    if q == [] then [] else if q[0] == x then q[1..] else [q[0]] + Without(q[1..], x)
  }

  lemma {:induction false} WithoutMeans<T>(q: seq<T>, x: T)
    requires Distinct(q)
    ensures Distinct(Without(q, x))
    ensures forall y :: y in Without(q, x) <==> y in q && y != x
  {
    if q != [] {
      assert Distinct(q[1..]);
      WithoutMeans(q[1..], x);
      assert q == [q[0]] + q[1..];
      assert q[0] !in q[1..];
      assert forall y :: y in Without(q, x) <==> y in q && y != x;
    }
  }

  /** Removing keeps the order of all others. */
  lemma {:induction false} WithoutKeepsOrder<T>(q: seq<T>, x: T, i: nat)
    requires i < |q| && q[i] == x && x !in q[..i]
    ensures Without(q, x) == q[..i] + q[i + 1..]
  {
    if i > 0 {
      assert x !in q[1..][..i - 1] by {
        assert forall j :: 0 <= j < i - 1 ==> q[1..][j] == q[..i][j + 1];
      }
      WithoutKeepsOrder(q[1..], x, i - 1);
    }
  }
}
