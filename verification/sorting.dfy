/** The ordering used by every report: rows (`int[]`) ordered ascending by
    their first column. Java's `List.sort` and `Arrays.sort` on objects are
    stable, so rows with equal first columns keep their original order; the
    model is a stable insertion sort, and `SortIsStable` proves that property. */
module Sorting {

  /** The sort key of a report row: its first column (a location). */
  function Key(row: seq<int>): int {
    if |row| == 0 then 0 else row[0]
  }

  predicate SortedByKey(m: seq<seq<int>>) {
    forall i, j :: 0 <= i < j < |m| ==> Key(m[i]) <= Key(m[j])
  }

  /** The rows of `m` whose key is `k`, in their order in `m`. */
  function WithKey(m: seq<seq<int>>, k: int): seq<seq<int>> {
    if |m| == 0 then []
    else (if Key(m[0]) == k then [m[0]] else []) + WithKey(m[1..], k)
  }

  lemma {:induction false} WithKeyAppend(a: seq<seq<int>>, b: seq<seq<int>>, k: int)
    ensures WithKey(a + b, k) == WithKey(a, k) + WithKey(b, k)
  {
    if |a| > 0 {
      assert (a + b)[1..] == a[1..] + b;
      WithKeyAppend(a[1..], b, k);
    } else {
      assert a + b == b;
    }
  }

  /** Places `x` after every row whose key is not larger than its own. */
  function Insert(x: seq<int>, m: seq<seq<int>>): (r: seq<seq<int>>)
    ensures |r| == |m| + 1
    ensures multiset(r) == multiset(m) + multiset{x}
    ensures SortedByKey(m) ==> SortedByKey(r)
  {
    if |m| == 0 then [x]
    else if Key(x) < Key(m[0]) then [x] + m
    else
      var rest := Insert(x, m[1..]);
      assert m == [m[0]] + m[1..];
      assert SortedByKey(m) ==> forall k :: 0 <= k < |rest| ==> Key(m[0]) <= Key(rest[k]) by {
        if SortedByKey(m) {
          forall k | 0 <= k < |rest|
            ensures Key(m[0]) <= Key(rest[k])
          {
            assert rest[k] in multiset(rest);
            if rest[k] != x {
              assert rest[k] in multiset(m[1..]);
              var j :| 0 <= j < |m[1..]| && m[1..][j] == rest[k];
              assert m[j + 1] == rest[k];
            }
          }
        }
      }
      [m[0]] + rest
  }

  /** Inserts the rows one after another, from the first to the last. */
  function SortByKey(m: seq<seq<int>>): (r: seq<seq<int>>)
    ensures |r| == |m|
    ensures multiset(r) == multiset(m)
    ensures SortedByKey(r)
  {
    if |m| == 0 then []
    else
      assert m == m[..|m| - 1] + [m[|m| - 1]];
      Insert(m[|m| - 1], SortByKey(m[..|m| - 1]))
  }

  lemma {:induction false} InsertWithKey(x: seq<int>, m: seq<seq<int>>, k: int)
    requires SortedByKey(m)
    ensures WithKey(Insert(x, m), k) == WithKey(m, k) + (if Key(x) == k then [x] else [])
  {
    if |m| == 0 {
    } else if Key(x) < Key(m[0]) {
      if Key(x) == k {
        // every row of m has a key above k
        NoneWithKey(m, k);
      }
      assert Insert(x, m) == [x] + m;
      WithKeyAppend([x], m, k);
    } else {
      InsertWithKey(x, m[1..], k);
      assert Insert(x, m) == [m[0]] + Insert(x, m[1..]);
    }
  }

  lemma {:induction false} NoneWithKey(m: seq<seq<int>>, k: int)
    requires forall i :: 0 <= i < |m| ==> Key(m[i]) > k
    ensures WithKey(m, k) == []
  {
    if |m| > 0 {
      NoneWithKey(m[1..], k);
    }
  }

  /** Sorting keeps, for every key, the rows with that key in their original order. */
  lemma {:induction false} SortIsStable(m: seq<seq<int>>, k: int)
    ensures WithKey(SortByKey(m), k) == WithKey(m, k)
  {
    if |m| > 0 {
      var init := m[..|m| - 1];
      var last := m[|m| - 1];
      assert m == init + [last];
      SortIsStable(init, k);
      InsertWithKey(last, SortByKey(init), k);
      WithKeyAppend(init, [last], k);
    }
  }
}
