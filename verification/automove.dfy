/** `moveRobots`: take the `robots()` and `stores()` snapshots, assign robots
    to stores with coins by the greedy nearest-pair loop, and carry out each
    assignment with `moveRobot(robotLocation, storeLocation - robotLocation)`
    on the live simulation (an assignment at distance 0 moves nothing). The
    locations come from the snapshot, so `moveRobot` moves whichever robot is
    listed first at that location when the move is made. */
module AutoMove {
  import opened Util
  import opened Sorting
  import opened SilkState
  import opened Operations
  import opened Reports
  import opened Matching

  /** What `moveRobots` reports besides the moves themselves. */
  datatype Report = NoRobots | NoStores | NoStoresWithCoins | Assigned(plan: seq<(nat, nat)>)

  /** The first column (location) of every row. */
  function Locations(m: seq<seq<int>>): (r: seq<int>)
    ensures |r| == |m| && forall i :: 0 <= i < |m| ==> r[i] == Key(m[i])
  {
    seq(|m|, i requires 0 <= i < |m| => Key(m[i]))
  }

  /** The second column (coins) of a row, 0 if it has none. */
  function Coins(row: seq<int>): int {
    if |row| < 2 then 0 else row[1]
  }

  /** `0, 1, ..., n - 1`: every robot row is available at the start. */
  function AllRows(n: nat): (r: seq<nat>)
    ensures |r| == n && Distinct(r)
    ensures forall i :: 0 <= i < n ==> r[i] == i
  {
    seq(n, i requires 0 <= i < n => i)
  }

  /** The rows among the first `n` of `m` whose coins are positive, in increasing order. */
  function RowsWithCoins(m: seq<seq<int>>, n: nat): (r: seq<nat>)
    requires n <= |m|
    ensures forall k :: 0 <= k < |r| ==> r[k] < n && Coins(m[r[k]]) > 0
    ensures forall j :: 0 <= j < n && Coins(m[j]) > 0 ==> j in r
    ensures forall k, l :: 0 <= k < l < |r| ==> r[k] < r[l]
  {
    if n == 0 then []
    else
      var prefix := RowsWithCoins(m, n - 1);
      if Coins(m[n - 1]) > 0 then prefix + [n - 1] else prefix
  }

  lemma IncreasingIsDistinct(r: seq<nat>)
    requires forall k, l :: 0 <= k < l < |r| ==> r[k] < r[l]
    ensures Distinct(r)
  {
  }

  /** The matching problem `moveRobots` sets up from the two snapshots. */
  function Snapshot(s: State): (p: Pool)
    requires Shaped(s)
    ensures WellFormed(p) && Distinct(p.robots) && Distinct(p.stores)
    ensures |p.robots| == |s.robots| && |p.robotLocs| == |s.robots| && |p.storeLocs| == |s.stores|
    ensures p.robotLocs == Locations(RobotsReport(s)) && p.storeLocs == Locations(StoresReport(s))
    ensures forall i :: 0 <= i < |p.robots| ==> p.robots[i] == i
    ensures forall k :: 0 <= k < |p.stores| ==>
      p.stores[k] < |StoresReport(s)| && Coins(StoresReport(s)[p.stores[k]]) > 0
    ensures forall j :: 0 <= j < |StoresReport(s)| && Coins(StoresReport(s)[j]) > 0 ==> j in p.stores
  {
    var robotRows := RobotsReport(s);
    var storeRows := StoresReport(s);
    var stores := RowsWithCoins(storeRows, |storeRows|);
    IncreasingIsDistinct(stores);
    Pool(Locations(robotRows), Locations(storeRows), AllRows(|robotRows|), stores)
  }

  /** The snapshot offers a store exactly when some listed store holds coins. */
  lemma SnapshotHasCoins(s: State)
    requires Shaped(s)
    ensures |Snapshot(s).stores| > 0 <==> exists i :: 0 <= i < |s.stores| && s.stores[i].coins > 0
  {
    var storeRows := StoresReport(s);
    var stores := Snapshot(s).stores;
    assert stores == RowsWithCoins(storeRows, |storeRows|);
    if |stores| > 0 {
      var j := stores[0];
      assert storeRows[j] in storeRows;
      var i :| 0 <= i < |s.stores| && storeRows[j] == [s.storeSegments[i], s.stores[i].coins];
      assert s.stores[i].coins > 0;
    }
    if exists i :: 0 <= i < |s.stores| && s.stores[i].coins > 0 {
      var i :| 0 <= i < |s.stores| && s.stores[i].coins > 0;
      var row := [s.storeSegments[i], s.stores[i].coins];
      assert row in storeRows;
      var j :| 0 <= j < |storeRows| && storeRows[j] == row;
      assert Coins(storeRows[j]) > 0;
      assert j in stores;
    }
  }

  /** One assignment: `moveRobot(robotLocation, ±distance)` towards the store,
      skipped when the robot row is already at the store's location. */
  function Assign(s: State, robotLocation: int, storeLocation: int): (r: State)
    requires Shaped(s)
    ensures Shaped(r) && SameGrid(s, r)
    ensures |r.robots| == |s.robots| && r.storeSegments == s.storeSegments && |r.stores| == |s.stores|
    ensures r.nextId == s.nextId
    ensures r.totalMovementCosts >= s.totalMovementCosts
    ensures robotLocation == storeLocation ==> r == s
    ensures robotLocation != storeLocation ==> r == MoveRobot(s, robotLocation, storeLocation - robotLocation).0
  {
    var distance := Abs(storeLocation - robotLocation);
    if distance > 0 then
      MoveRobot(s, robotLocation, if storeLocation > robotLocation then distance else -distance).0
    else s
  }

  /** The assignments carried out one after the other on the live state. */
  function ApplyPlan(s: State, plan: seq<(nat, nat)>, robotLocs: seq<int>, storeLocs: seq<int>): (r: State)
    requires Shaped(s)
    requires forall k :: 0 <= k < |plan| ==> plan[k].0 < |robotLocs| && plan[k].1 < |storeLocs|
    ensures Shaped(r) && SameGrid(s, r)
    ensures |r.robots| == |s.robots| && r.storeSegments == s.storeSegments && |r.stores| == |s.stores|
    ensures r.nextId == s.nextId
    ensures r.totalMovementCosts >= s.totalMovementCosts
    decreases |plan|
  {
    if |plan| == 0 then s
    else ApplyPlan(Assign(s, robotLocs[plan[0].0], storeLocs[plan[0].1]), plan[1..], robotLocs, storeLocs)
  }

  /** `moveRobots`: nothing happens without robots, without stores, or without a
      store holding coins; otherwise the greedy assignment is carried out. */
  function MoveRobots(s: State): (r: (State, Report))
    requires Shaped(s)
    ensures Shaped(r.0) && SameGrid(s, r.0)
    ensures |s.robots| == 0 ==> r == (s, NoRobots)
    ensures |s.robots| > 0 && |s.stores| == 0 ==> r == (s, NoStores)
    ensures |s.robots| > 0 && |s.stores| > 0 && (forall i :: 0 <= i < |s.stores| ==> s.stores[i].coins <= 0) ==>
      r == (s, NoStoresWithCoins)
    ensures r.1.Assigned? <==> |s.robots| > 0 && exists i :: 0 <= i < |s.stores| && s.stores[i].coins > 0
    ensures r.1.Assigned? ==> r.1.plan == Greedy(Snapshot(s))
    ensures !r.1.Assigned? ==> r.0 == s
    ensures r.1.Assigned? ==>
      && (forall k :: 0 <= k < |r.1.plan| ==>
            r.1.plan[k].0 < |Snapshot(s).robotLocs| && r.1.plan[k].1 < |Snapshot(s).storeLocs|)
      && r.0 == ApplyPlan(s, r.1.plan, Snapshot(s).robotLocs, Snapshot(s).storeLocs)
    ensures |r.0.robots| == |s.robots| && r.0.storeSegments == s.storeSegments && |r.0.stores| == |s.stores|
    ensures r.0.totalMovementCosts >= s.totalMovementCosts
  {
    // the two snapshots have one row per robot and per store
    if |s.robots| == 0 then (s, NoRobots)
    else if |s.stores| == 0 then (s, NoStores)
    else
      var p := Snapshot(s);
      SnapshotHasCoins(s);
      if |p.stores| == 0 then (s, NoStoresWithCoins)
      else
        var plan := Greedy(p);
        GreedyInRange(p);
        (ApplyPlan(s, plan, p.robotLocs, p.storeLocs), Assigned(plan))
  }

  /** `moveRobots` only sends robots to stores whose row in `stores()` shows coins. */
  lemma PlanUsesStoresWithCoins(s: State)
    requires Shaped(s)
    ensures MoveRobots(s).1.Assigned? ==> forall k :: 0 <= k < |MoveRobots(s).1.plan| ==>
      MoveRobots(s).1.plan[k].1 < |StoresReport(s)| && Coins(StoresReport(s)[MoveRobots(s).1.plan[k].1]) > 0
  {
    var p := Snapshot(s);
    GreedyUsesAvailable(p);
    forall k | 0 <= k < |Greedy(p)|
      ensures Greedy(p)[k].1 < |StoresReport(s)| && Coins(StoresReport(s)[Greedy(p)[k].1]) > 0
    {
      assert Available(p, Greedy(p)[k]);
    }
  }

  /** The greedy plan only names rows of the two snapshots. */
  lemma GreedyInRange(p: Pool)
    requires WellFormed(p)
    ensures forall k :: 0 <= k < |Greedy(p)| ==> Greedy(p)[k].0 < |p.robotLocs| && Greedy(p)[k].1 < |p.storeLocs|
  {
    GreedyUsesAvailable(p);
    forall k | 0 <= k < |Greedy(p)|
      ensures Greedy(p)[k].0 < |p.robotLocs| && Greedy(p)[k].1 < |p.storeLocs|
    {
      AvailableInRange(p, Greedy(p)[k]);
    }
  }
}
