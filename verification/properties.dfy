/** Properties that relate several operations of SilkRoad, or an operation and a query. */
module Properties {
  import opened Util
  import Stores
  import Segments
  import opened Sorting
  import opened SilkState
  import opened Operations
  import opened Reports
  import opened Invariants

  /** A move onto an occupied segment leaves that segment as it was, yet the robot is
      listed there and its old segment's robot slot is cleared. */
  lemma MoveOntoOccupied(s: State, location: int, meters: int)
    requires Shaped(s) && location in s.robotSegments && meters != 0
    requires 0 <= location + meters < |s.segments| && Segments.IsOccupied(s.segments[location + meters])
    ensures var r := MoveRobot(s, location, meters).0;
      && r.segments[location + meters] == s.segments[location + meters]
      && r.segments[location].robot == None
      && r.robotSegments[IndexOf(s.robotSegments, location)] == location + meters
  {
    MoveRobotSteps(s, location, meters);
  }

  /** A move onto a free segment puts the robot in that segment's robot slot and
      clears its old segment's robot slot. */
  lemma MoveOntoFree(s: State, location: int, meters: int)
    requires Shaped(s) && location in s.robotSegments && meters != 0
    requires 0 <= location + meters < |s.segments| && !Segments.IsOccupied(s.segments[location + meters])
    ensures var r := MoveRobot(s, location, meters).0;
      && r.segments[location + meters].robot == Some(s.robots[IndexOf(s.robotSegments, location)].id)
      && r.segments[location].robot == None
      && r.robotSegments[IndexOf(s.robotSegments, location)] == location + meters
  {
    MoveRobotSteps(s, location, meters);
  }

  /** Applying a plan in two parts is applying the whole plan. */
  lemma {:induction false} ApplyDaysAppend(s: State, a: seq<seq<int>>, b: seq<seq<int>>)
    requires Shaped(s)
    ensures ApplyDays(s, a + b) == ApplyDays(ApplyDays(s, a), b)
    decreases |a|
  {
    if |a| > 0 {
      assert (a + b)[0] == a[0] && (a + b)[1..] == a[1..] + b;
      ApplyDaysAppend(ApplyDay(s, a[0]), a[1..], b);
    } else {
      assert a + b == b;
    }
  }

  /** A move changes the profit by the coins it collected minus the metres walked;
      a refused move changes nothing. */
  lemma MoveRobotProfit(s: State, location: int, meters: int)
    requires Shaped(s)
    ensures var r := MoveRobot(s, location, meters);
      r.1.Moved? ==> Profit(r.0) == Profit(s) + r.1.collected - Abs(meters)
    ensures !MoveRobot(s, location, meters).1.Moved? ==> MoveRobot(s, location, meters).0 == s
  {
    var r := MoveRobot(s, location, meters);
    if r.1.Moved? {
      MoveRobotMoves(s, location, meters);
      var idx := IndexOf(s.robotSegments, location);
      var d := s.robots[idx].dailyCoins + r.1.collected;
      assert DailyCoins(r.0.robots) == DailyCoins(s.robots)[idx := d];
      SumUpdate(DailyCoins(s.robots), idx, d);
    }
  }

  /** Arriving at a cell with a listed store holding a positive Java `int` balance
      takes all of it: the store is left empty and counted as emptied once more. */
  lemma MoveRobotEmptiesStore(s: State, location: int, meters: int)
    requires Valid(s) && location in s.robotSegments && 0 <= location + meters < |s.segments|
    requires location + meters in s.storeSegments
    requires 0 < s.stores[IndexOf(s.storeSegments, location + meters)].coins <= MaxInt
    ensures var r := MoveRobot(s, location, meters);
      var k := IndexOf(s.storeSegments, location + meters);
      && r.1 == Moved(s.stores[k].coins)
      && r.0.stores[k].coins == 0
      && r.0.stores[k].timesEmptied == s.stores[k].timesEmptied + 1
      && (forall i :: 0 <= i < |s.stores| && i != k ==> r.0.stores[i] == s.stores[i])
  {
    var k := IndexOf(s.storeSegments, location + meters);
    ListedStoreAt(s, location + meters);
    EmptiesListedStore(s, location, meters, k);
  }

  /** The move of `MoveRobotEmptiesStore`, once the store at the target is known to be store `k`. */
  lemma EmptiesListedStore(s: State, location: int, meters: int, k: int)
    requires Shaped(s) && location in s.robotSegments && 0 <= location + meters < |s.segments|
    requires location + meters in s.storeSegments && k == IndexOf(s.storeSegments, location + meters)
    requires StoreAt(s, location + meters) == k && 0 < s.stores[k].coins <= MaxInt
    ensures var r := MoveRobot(s, location, meters);
      && r.1 == Moved(s.stores[k].coins)
      && r.0.stores[k].coins == 0
      && r.0.stores[k].timesEmptied == s.stores[k].timesEmptied + 1
      && (forall i :: 0 <= i < |s.stores| && i != k ==> r.0.stores[i] == s.stores[i])
  {
    EmptiesStoreAt(s, location, meters, k);
  }

  /** Under the invariant, the store a segment holds is the one listed at it. */
  lemma ListedStoreAt(s: State, location: int)
    requires Valid(s) && 0 <= location < |s.segments| && location in s.storeSegments
    ensures StoreAt(s, location) == IndexOf(s.storeSegments, location)
  {
    SegmentStoreIsListedStore(s, location);
  }

  lemma EmptiesStoreAt(s: State, location: int, meters: int, k: int)
    requires Shaped(s) && location in s.robotSegments && 0 <= location + meters < |s.segments|
    requires 0 <= k < |s.stores| && StoreAt(s, location + meters) == k
    requires 0 < s.stores[k].coins <= MaxInt
    ensures var r := MoveRobot(s, location, meters);
      && r.1 == Moved(s.stores[k].coins)
      && r.0.stores[k].coins == 0
      && r.0.stores[k].timesEmptied == s.stores[k].timesEmptied + 1
      && (forall i :: 0 <= i < |s.stores| && i != k ==> r.0.stores[i] == s.stores[i])
  {
    MoveRobotCollects(s, location, meters);
  }

  /** Arriving at a cell where no store is listed collects nothing. */
  lemma MoveRobotWithoutStore(s: State, location: int, meters: int)
    requires Valid(s) && location in s.robotSegments && 0 <= location + meters < |s.segments|
    requires location + meters !in s.storeSegments
    ensures MoveRobot(s, location, meters).1 == Moved(0)
    ensures MoveRobot(s, location, meters).0.stores == s.stores
  {
    SegmentStoreIsListedStore(s, location + meters);
    assert StoreAt(s, location + meters) == -1;
    MoveRobotCollects(s, location, meters);
  }

  /** After `returnRobots` the day starts over: every robot is listed at home, no
      move is recorded, the profit is the coins held, and `profitPerMove` falls back
      to one `[home, coins]` row per robot. */
  lemma ReturnRobotsStartsOver(s: State)
    requires Shaped(s)
    ensures var r := ReturnRobots(s);
      && Profit(r) == TotalCoinsCollected(s)
      && !HasMovements(r)
      && ProfitRows(r) == seq(|s.robots|, i requires 0 <= i < |s.robots| =>
           [s.robots[i].initialSegment, s.robots[i].dailyCoins])
  {
    var r := ReturnRobots(s);
    assert DailyCoins(r.robots) == DailyCoins(s.robots);
  }

  /** Placing a store on a free cell and removing it again gives back the same
      road, lists and costs; only the identity counter has moved on. */
  lemma PlaceThenRemoveStore(s: State, location: int, tenges: int)
    requires Valid(s) && PlaceStore(s, location, tenges).1 == Done
    ensures var r := RemoveStore(PlaceStore(s, location, tenges).0, location);
      && r.1 == Done
      && r.0.segments == s.segments
      && StoresUnchanged(s, r.0) && RobotsUnchanged(s, r.0)
      && r.0.totalMovementCosts == s.totalMovementCosts
      && r.0.bar.maxPossibleProfit == s.bar.maxPossibleProfit
      && r.0.nextId == s.nextId + 1
  {
    var p := PlaceStore(s, location, tenges).0;
    UnlistedLocationIsEmpty(s, location);
    assert IndexOf(p.storeSegments, location) == |s.storeSegments| by {
      assert p.storeSegments[|s.storeSegments|] == location;
    }
    assert RemoveAt(p.stores, |s.stores|) == s.stores;
    assert RemoveAt(p.storeSegments, |s.storeSegments|) == s.storeSegments;
    var r := RemoveStore(p, location).0;
    assert r.segments[location] == s.segments[location];
    assert r.segments == s.segments;
  }

  /** Placing a robot on a free cell and removing it again gives back the same
      road, lists and costs. */
  lemma PlaceThenRemoveRobot(s: State, location: int)
    requires Valid(s) && PlaceRobot(s, location).1 == Done
    ensures var r := RemoveRobot(PlaceRobot(s, location).0, location);
      && r.1 == Done
      && r.0.segments == s.segments
      && StoresUnchanged(s, r.0) && RobotsUnchanged(s, r.0)
      && r.0.totalMovementCosts == s.totalMovementCosts && r.0.bar == s.bar
      && r.0.nextId == s.nextId + 1
  {
    var p := PlaceRobot(s, location).0;
    UnlistedLocationIsEmpty(s, location);
    assert IndexOf(p.robotSegments, location) == |s.robotSegments| by {
      assert p.robotSegments[|s.robotSegments|] == location;
    }
    assert p.robots == s.robots + [p.robots[|s.robots|]];
    assert RemoveAt(p.robots, |s.robots|) == s.robots;
    assert RemoveAt(p.robotSegments, |s.robotSegments|) == s.robotSegments;
    assert RemoveAt(p.movementHistory, |s.robots|) == s.movementHistory;
    assert RemoveAt(p.coinHistory, |s.robots|) == s.coinHistory;
    var r := RemoveRobot(p, location).0;
    assert r.segments[location] == s.segments[location];
    assert r.segments == s.segments;
  }

  /** Two entries of a day plan that agree except, perhaps, in the first column. */
  predicate SameEntryButFirst(day: seq<int>, other: seq<int>) {
    |day| == |other| && forall k :: 1 <= k < |day| ==> day[k] == other[k]
  }

  /** Two day plans that differ only in the first column of their entries. */
  predicate SameButFirst(days: seq<seq<int>>, other: seq<seq<int>>) {
    && |days| == |other|
    && forall i :: 0 <= i < |days| ==> SameEntryButFirst(days[i], other[i])
  }

  lemma SameButFirstRest(days: seq<seq<int>>, other: seq<seq<int>>)
    requires SameButFirst(days, other) && |days| > 0
    ensures SameButFirst(days[1..], other[1..])
  {
    forall i | 0 <= i < |days| - 1
      ensures SameEntryButFirst(days[1..][i], other[1..][i])
    {
      assert days[1..][i] == days[i + 1] && other[1..][i] == other[i + 1];
    }
  }

  lemma {:induction false} MaxLocationIgnoresFirst(days: seq<seq<int>>, other: seq<seq<int>>, start: int)
    requires SameButFirst(days, other)
    ensures MaxLocation(days, start) == MaxLocation(other, start)
    decreases |days|
  {
    if |days| > 0 {
      assert SameEntryButFirst(days[0], other[0]);
      SameButFirstRest(days, other);
      var next := if |days[0]| >= 2 && days[0][1] > start then days[0][1] else start;
      MaxLocationIgnoresFirst(days[1..], other[1..], next);
    }
  }

  lemma {:induction false} ApplyDaysIgnoresFirst(s: State, days: seq<seq<int>>, other: seq<seq<int>>)
    requires Shaped(s) && SameButFirst(days, other)
    ensures ApplyDays(s, days) == ApplyDays(s, other)
    decreases |days|
  {
    if |days| > 0 {
      assert SameEntryButFirst(days[0], other[0]);
      assert ApplyDay(s, days[0]) == ApplyDay(s, other[0]);
      SameButFirstRest(days, other);
      ApplyDaysIgnoresFirst(ApplyDay(s, days[0]), days[1..], other[1..]);
    }
  }

  /** The day constructor never reads the first column of an entry. */
  lemma FromDaysIgnoresFirstColumn(days: seq<seq<int>>, other: seq<seq<int>>)
    requires SameButFirst(days, other)
    ensures FromDays(days) == FromDays(other)
  {
    MaxLocationIgnoresFirst(days, other, 0);
    var length := Max(10, MaxLocation(days, 0) + 5);
    assert length == Max(10, MaxLocation(other, 0) + 5);
    var s0 := Init(length).value;
    ApplyDaysIgnoresFirst(s0, days, other);
    assert FromDays(days) == ApplyDays(s0, days);
    assert FromDays(other) == ApplyDays(s0, other);
  }

  lemma {:induction false} EmptiedRowsAfterResupply(s: State, n: nat)
    requires Shaped(s) && n <= |s.stores|
    ensures EmptiedRows(ResupplyStores(s), n) == EmptiedRows(s, n)
  {
    if n > 0 {
      EmptiedRowsAfterResupply(s, n - 1);
    }
  }

  /** Restocking does not reset the emptied counters: `emptiedStores()` is the same
      before and after `resupplyStores`. */
  lemma ResupplyKeepsEmptiedStores(s: State)
    requires Shaped(s)
    ensures EmptiedStoresReport(ResupplyStores(s)) == EmptiedStoresReport(s)
  {
    EmptiedRowsAfterResupply(s, |s.stores|);
  }

  /** After `resupplyStores`, `stores()` shows every store at its initial balance. */
  lemma ResupplyRestoresBalances(s: State)
    requires Shaped(s)
    ensures forall row :: row in StoresReport(ResupplyStores(s)) <==>
      exists i :: 0 <= i < |s.stores| && row == [s.storeSegments[i], s.stores[i].initialCoins]
  {
    var r := ResupplyStores(s);
    forall row
      ensures row in StoresReport(r) <==>
        exists i :: 0 <= i < |s.stores| && row == [s.storeSegments[i], s.stores[i].initialCoins]
    {
      if row in StoresReport(r) {
        var i :| 0 <= i < |r.stores| && row == [r.storeSegments[i], r.stores[i].coins];
        assert row == [s.storeSegments[i], s.stores[i].initialCoins];
      }
      if exists i :: 0 <= i < |s.stores| && row == [s.storeSegments[i], s.stores[i].initialCoins] {
        var i :| 0 <= i < |s.stores| && row == [s.storeSegments[i], s.stores[i].initialCoins];
        assert row == [r.storeSegments[i], r.stores[i].coins];
      }
    }
  }

  /** After `reboot` nothing is left to report and the profit is 0. */
  lemma RebootEmptiesReports(s: State)
    ensures var r := Reboot(s);
      && Profit(r) == 0
      && StoresReport(r) == [] && RobotsReport(r) == []
      && EmptiedStoresReport(r) == [] && ProfitPerMove(r) == []
  {
  }
}
