/** Small building blocks shared by the model: an optional value, a pixel
    point, Java's `Integer.MAX_VALUE`, and the list operations the simulation
    uses on its `ArrayList`s (`indexOf`, `remove(int)`, summing). */
module Util {

  /** A possibly absent value, standing in for a Java reference that may be null. */
  datatype Option<+T> = None | Some(value: T)

  /** A `java.awt.Point`: integer pixel coordinates. */
  datatype Point = Point(x: int, y: int)

  /** `Integer.MAX_VALUE`. */
  const MaxInt: int := 0x7fff_ffff

  function Abs(x: int): (r: int)
    ensures r >= 0
    ensures r == x || r == -x
  {
    if x < 0 then -x else x
  }

  function Min(a: int, b: int): (r: int)
    ensures r <= a && r <= b
    ensures r == a || r == b
  {
    if a <= b then a else b
  }

  function Max(a: int, b: int): (r: int)
    ensures r >= a && r >= b
    ensures r == a || r == b
  {
    if a >= b then a else b
  }

  /** `ArrayList.indexOf`: the first position holding `v`, or -1 when there is none. */
  function IndexOf(xs: seq<int>, v: int): (r: int)
    ensures -1 <= r < |xs|
    ensures r == -1 <==> v !in xs
    ensures r >= 0 ==> xs[r] == v && forall k :: 0 <= k < r ==> xs[k] != v
  {
    if |xs| == 0 then -1
    else if xs[0] == v then 0
    else
      var k := IndexOf(xs[1..], v);
      if k == -1 then -1 else k + 1
  }

  /** `ArrayList.remove(int)`: drops position `i`, shifting the rest down by one. */
  function RemoveAt<T>(xs: seq<T>, i: nat): (r: seq<T>)
    requires i < |xs|
    ensures |r| == |xs| - 1
    ensures forall k :: 0 <= k < i ==> r[k] == xs[k]
    ensures forall k :: i <= k < |r| ==> r[k] == xs[k + 1]
  {
    xs[..i] + xs[i + 1..]
  }

  lemma RemoveAtMembership<T>(xs: seq<T>, i: nat, x: T)
    requires i < |xs|
    ensures x in RemoveAt(xs, i) ==> x in xs
    ensures x in xs && x != xs[i] ==> x in RemoveAt(xs, i)
  {
    var r := RemoveAt(xs, i);
    if x in r {
      var k :| 0 <= k < |r| && r[k] == x;
      if k < i { assert xs[k] == x; } else { assert xs[k + 1] == x; }
    }
    if x in xs && x != xs[i] {
      var k :| 0 <= k < |xs| && xs[k] == x;
      if k < i { assert r[k] == x; } else { assert r[k - 1] == x; }
    }
  }

  predicate Distinct<T(==)>(xs: seq<T>) {
    forall i, j :: 0 <= i < j < |xs| ==> xs[i] != xs[j]
  }

  lemma RemoveAtDistinct<T>(xs: seq<T>, i: nat)
    requires i < |xs| && Distinct(xs)
    ensures Distinct(RemoveAt(xs, i))
    ensures xs[i] !in RemoveAt(xs, i)
  {
    var r := RemoveAt(xs, i);
    forall a, b | 0 <= a < b < |r|
      ensures r[a] != r[b]
    {
      var a' := if a < i then a else a + 1;
      var b' := if b < i then b else b + 1;
      assert r[a] == xs[a'] && r[b] == xs[b'] && a' < b';
    }
    forall k | 0 <= k < |r|
      ensures r[k] != xs[i]
    {
      if k < i { assert r[k] == xs[k]; } else { assert r[k] == xs[k + 1]; }
    }
  }

  /** The sum of a sequence of integers (a Java accumulation loop, without overflow). */
  function Sum(xs: seq<int>): int {
    if |xs| == 0 then 0 else Sum(xs[..|xs| - 1]) + xs[|xs| - 1]
  }

  lemma {:induction false} SumAppend(xs: seq<int>, x: int)
    ensures Sum(xs + [x]) == Sum(xs) + x
  {
    assert (xs + [x])[..|xs|] == xs;
  }

  lemma {:induction false} SumUpdate(xs: seq<int>, i: nat, v: int)
    requires i < |xs|
    ensures Sum(xs[i := v]) == Sum(xs) - xs[i] + v
  {
    var n := |xs| - 1;
    if i == n {
      assert xs[i := v][..n] == xs[..n];
    } else {
      assert xs[i := v][..n] == xs[..n][i := v];
      SumUpdate(xs[..n], i, v);
    }
  }

  lemma {:induction false} SumRemoveAt(xs: seq<int>, i: nat)
    requires i < |xs|
    ensures Sum(RemoveAt(xs, i)) == Sum(xs) - xs[i]
  {
    var n := |xs| - 1;
    if i == n {
      assert RemoveAt(xs, i) == xs[..n];
    } else {
      assert RemoveAt(xs, i) == RemoveAt(xs[..n], i) + [xs[n]];
      SumAppend(RemoveAt(xs[..n], i), xs[n]);
      SumRemoveAt(xs[..n], i);
    }
  }
}
