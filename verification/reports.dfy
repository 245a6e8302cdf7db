/** The read-only queries of SilkRoad: the profit and the four tables, each an
    `int[][]` whose rows are ordered by their first column (a location) with a
    stable sort. The console output `profitPerMove` prints is not modelled. */
module Reports {
  import opened Util
  import opened Sorting
  import opened SilkState

  /** `profit`: the coins the robots hold minus the metres they have been charged.
      Charged metres are never negative, so the profit never exceeds the coins held. */
  function Profit(s: State): (p: int)
    ensures p + s.totalMovementCosts == TotalCoinsCollected(s)
    ensures s.totalMovementCosts >= 0 ==> p <= TotalCoinsCollected(s)
  {
    TotalCoinsCollected(s) - s.totalMovementCosts
  }

  /** The rows of `stores()` before sorting: `[location, coins]` per listed store, in list order. */
  function StoreRows(s: State): (m: seq<seq<int>>)
    requires Shaped(s)
    ensures |m| == |s.stores|
    ensures forall i :: 0 <= i < |m| ==> m[i] == [s.storeSegments[i], s.stores[i].coins]
  {
    seq(|s.stores|, i requires 0 <= i < |s.stores| => [s.storeSegments[i], s.stores[i].coins])
  }

  /** The rows of `robots()` before sorting: `[location, coins collected]` per listed robot. */
  function RobotRows(s: State): (m: seq<seq<int>>)
    requires Shaped(s)
    ensures |m| == |s.robots|
    ensures forall i :: 0 <= i < |m| ==> m[i] == [s.robotSegments[i], s.robots[i].dailyCoins]
  {
    seq(|s.robots|, i requires 0 <= i < |s.robots| => [s.robotSegments[i], s.robots[i].dailyCoins])
  }

  /** A sorted report: the same rows, ordered by location, equal locations in list order. */
  ghost predicate IsReportOf(m: seq<seq<int>>, rows: seq<seq<int>>) {
    && multiset(m) == multiset(rows)
    && SortedByKey(m)
    && forall k :: WithKey(m, k) == WithKey(rows, k)
  }

  function Report(rows: seq<seq<int>>): (m: seq<seq<int>>)
    ensures |m| == |rows|
    ensures IsReportOf(m, rows)
  {
    var m := SortByKey(rows);
    assert forall k :: WithKey(m, k) == WithKey(rows, k) by {
      forall k { SortIsStable(rows, k); }
    }
    m
  }

  /** `stores()`: one `[location, coins]` row per store, by location. */
  function StoresReport(s: State): (m: seq<seq<int>>)
    requires Shaped(s)
    ensures |m| == |s.stores|
    ensures IsReportOf(m, StoreRows(s))
    ensures forall r :: r in m <==> exists i :: 0 <= i < |s.stores| && r == [s.storeSegments[i], s.stores[i].coins]
  {
    var m := Report(StoreRows(s));
    assert forall r :: r in m <==> r in StoreRows(s) by {
      forall r ensures r in m <==> r in multiset(m) { }
    }
    m
  }

  /** `robots()`: one `[location, coins collected]` row per robot, by location. */
  function RobotsReport(s: State): (m: seq<seq<int>>)
    requires Shaped(s)
    ensures |m| == |s.robots|
    ensures IsReportOf(m, RobotRows(s))
    ensures forall r :: r in m <==> exists i :: 0 <= i < |s.robots| && r == [s.robotSegments[i], s.robots[i].dailyCoins]
  {
    var m := Report(RobotRows(s));
    assert forall r :: r in m <==> r in RobotRows(s) by {
      forall r ensures r in m <==> r in multiset(m) { }
    }
    m
  }

  /** The rows of `emptiedStores()` before sorting, for the first `n` stores:
      `[location, timesEmptied]` for each store emptied at least once. */
  function EmptiedRows(s: State, n: nat): (m: seq<seq<int>>)
    requires Shaped(s) && n <= |s.stores|
    ensures forall r :: r in m <==>
      exists i :: 0 <= i < n && s.stores[i].timesEmptied > 0 && r == [s.storeSegments[i], s.stores[i].timesEmptied]
    ensures |m| <= n
    ensures Distinct(s.storeSegments) ==> Distinct(m)
  {
    if n == 0 then []
    else
      var i := n - 1;
      var prefix := EmptiedRows(s, i);
      if s.stores[i].timesEmptied > 0 then
        var row := [s.storeSegments[i], s.stores[i].timesEmptied];
        // the rows of `prefix` come from stores before `i`, so under distinct
        // locations none of them starts with store `i`'s location
        assert Distinct(s.storeSegments) ==> row !in prefix;
        prefix + [row]
      else prefix
  }

  /** `emptiedStores()`: `[location, times emptied]` for every store emptied at
      least once, whether or not it holds coins now, by location. */
  function EmptiedStoresReport(s: State): (m: seq<seq<int>>)
    requires Shaped(s)
    ensures IsReportOf(m, EmptiedRows(s, |s.stores|))
    ensures forall r :: r in m <==>
      exists i :: 0 <= i < |s.stores| && s.stores[i].timesEmptied > 0 && r == [s.storeSegments[i], s.stores[i].timesEmptied]
  {
    var rows := EmptiedRows(s, |s.stores|);
    var m := Report(rows);
    assert forall r :: r in m <==> r in rows by {
      forall r ensures r in m <==> r in multiset(m) { }
    }
    m
  }

  /** Whether some robot has a move recorded since the last `returnRobots`. */
  predicate HasMovements(s: State) {
    exists i :: 0 <= i < |s.movementHistory| && |s.movementHistory[i]| > 0
  }

  /** The largest number of moves any robot has recorded. */
  function MaxMoves(h: seq<seq<int>>): (w: nat)
    ensures forall i :: 0 <= i < |h| ==> |h[i]| <= w
    ensures w == 0 || exists i :: 0 <= i < |h| && |h[i]| == w
  {
    if |h| == 0 then 0
    else
      var rest := MaxMoves(h[..|h| - 1]);
      assert forall i :: 0 <= i < |h| - 1 ==> h[i] == h[..|h| - 1][i];
      if |h[|h| - 1]| > rest then |h[|h| - 1]| else rest
  }

  /** The fallback row of robot `i` when nothing is recorded: its location and its
      coins minus the distance between its home and its location. */
  function FallbackRow(s: State, i: nat): (row: seq<int>)
    requires Shaped(s) && i < |s.robots|
    ensures |row| == 2 && row[0] == s.robotSegments[i]
    ensures row[1] + Abs(s.robotSegments[i] - s.robots[i].initialSegment) == s.robots[i].dailyCoins
  {
    [s.robotSegments[i], s.robots[i].dailyCoins - Abs(s.robotSegments[i] - s.robots[i].initialSegment)]
  }

  /** The row of robot `i` when moves are recorded: its location, then per move the
      coins taken minus the metres walked, padded with 0 up to `width` moves. */
  function MoveRow(s: State, i: nat, width: nat): (row: seq<int>)
    requires Shaped(s) && i < |s.robots| && |s.movementHistory[i]| <= width
    ensures |row| == width + 1 && row[0] == s.robotSegments[i]
    ensures forall k :: 0 <= k < |s.movementHistory[i]| ==>
      row[k + 1] == s.coinHistory[i][k] - s.movementHistory[i][k]
    ensures forall k :: |s.movementHistory[i]| < k <= width ==> row[k] == 0
  {
    var moves := s.movementHistory[i];
    var coins := s.coinHistory[i];
    [s.robotSegments[i]] + seq(width, k requires 0 <= k < width =>
      if k < |moves| then coins[k] - moves[k] else 0)
  }

  function ProfitRows(s: State): (m: seq<seq<int>>)
    requires Shaped(s)
    ensures |m| == |s.robots|
    ensures !HasMovements(s) ==> forall i :: 0 <= i < |m| ==> m[i] == FallbackRow(s, i)
    ensures HasMovements(s) ==> forall i :: 0 <= i < |m| ==> m[i] == MoveRow(s, i, MaxMoves(s.movementHistory))
  {
    if !HasMovements(s) then
      seq(|s.robots|, i requires 0 <= i < |s.robots| => FallbackRow(s, i))
    else
      var width := MaxMoves(s.movementHistory);
      seq(|s.robots|, i requires 0 <= i < |s.robots| => MoveRow(s, i, width))
  }

  /** `profitPerMove()`: nothing without robots; the fallback two-column rows when
      no move is recorded; otherwise one row per robot of `1 + max moves` columns.
      Rows are ordered by the robot's current location. */
  function ProfitPerMove(s: State): (m: seq<seq<int>>)
    requires Shaped(s)
    ensures |s.robots| == 0 ==> m == []
    ensures |m| == |s.robots|
    ensures IsReportOf(m, ProfitRows(s))
    ensures !HasMovements(s) ==> forall r :: r in m ==> |r| == 2
    ensures HasMovements(s) ==> forall r :: r in m ==> |r| == MaxMoves(s.movementHistory) + 1
  {
    if |s.robots| == 0 then []
    else
      var rows := ProfitRows(s);
      var m := Report(rows);
      assert forall r :: r in m ==> r in rows by {
        forall r | r in m ensures r in multiset(m) { }
      }
      m
  }
}
