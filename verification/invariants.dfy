/** The class invariant `SilkState.Valid` holds after both constructors and is
    kept by every operation. */
module Invariants {
  import opened Util
  import Stores
  import Segments
  import opened SilkState
  import opened Operations
  import opened AutoMove

  /** A new road holds no store and no robot. */
  lemma InitValid(length: int)
    requires length > 0
    ensures Init(length).Some? && Valid(Init(length).value)
  {
    var s := Init(length).value;
    forall j | 0 <= j < |s.segments|
      ensures s.segments[j].index == j && Segments.Consistent(s.segments[j])
      ensures s.segments[j].store.None? && s.segments[j].robot.None?
    {
    }
  }

  /** Replacing store `k` by one with the same identity and initial coins keeps
      the list's identities and its total of initial coins. */
  lemma SameStoreShape(s: State, t: State, k: nat)
    requires k < |s.stores| && |t.stores| == |s.stores|
    requires forall i :: 0 <= i < |s.stores| && i != k ==> t.stores[i] == s.stores[i]
    requires t.stores[k].id == s.stores[k].id && t.stores[k].initialCoins == s.stores[k].initialCoins
    ensures InitialCoins(t.stores) == InitialCoins(s.stores)
    ensures TotalInitialCoins(t) == TotalInitialCoins(s)
  {
    assert InitialCoins(t.stores) == InitialCoins(s.stores);
  }

  lemma PlaceStoreValid(s: State, location: int, tenges: int)
    requires Valid(s)
    ensures Valid(PlaceStore(s, location, tenges).0)
  {
    var (r, out) := PlaceStore(s, location, tenges);
    if out == Done {
      UnlistedLocationIsEmpty(s, location);
      assert Distinct(r.storeSegments) by {
        forall a, b | 0 <= a < b < |r.storeSegments|
          ensures r.storeSegments[a] != r.storeSegments[b]
        {
          if b == |s.storeSegments| {
            assert r.storeSegments[a] == s.storeSegments[a];
          } else {
            assert r.storeSegments[a] == s.storeSegments[a] && r.storeSegments[b] == s.storeSegments[b];
          }
        }
      }
      forall i | 0 <= i < |r.stores|
        ensures r.segments[r.storeSegments[i]].store == Some(r.stores[i].id)
      {
        if i < |s.stores| {
          assert r.storeSegments[i] == s.storeSegments[i] != location;
        }
      }
      forall j | 0 <= j < |r.segments| && r.segments[j].store.Some?
        ensures j in r.storeSegments
      {
        if j != location {
          assert j in s.storeSegments;
          var k :| 0 <= k < |s.storeSegments| && s.storeSegments[k] == j;
          assert r.storeSegments[k] == j;
        } else {
          assert r.storeSegments[|s.storeSegments|] == j;
        }
      }
      forall j | 0 <= j < |r.segments| && r.segments[j].robot.Some?
        ensures j in r.robotSegments
      {
        assert j != location;
      }
    }
  }

  lemma RemoveStoreValid(s: State, location: int)
    requires Valid(s)
    ensures Valid(RemoveStore(s, location).0)
  {
    var (r, out) := RemoveStore(s, location);
    if out == Done {
      assert location in s.storeSegments;
      var idx := IndexOf(s.storeSegments, location);
      assert r.stores == RemoveAt(s.stores, idx) && r.storeSegments == RemoveAt(s.storeSegments, idx);
      ClearedStoreSlot(s, r, location);
      DroppedStoreSlots(s, r, location, idx);
      DroppedStoreIds(s, r, idx);
    }
  }

  /** Emptying one segment's store slot keeps every segment consistent and every
      robot slot listed. */
  lemma ClearedStoreSlot(s: State, r: State, location: int)
    requires Valid(s) && 0 <= location < |s.segments|
    requires r.segments == s.segments[location := Segments.RemoveStore(s.segments[location]).segment]
    requires r.robotSegments == s.robotSegments
    ensures SegmentsSound(r) && RobotSlotsListed(r)
  {
    forall j | 0 <= j < |r.segments| && r.segments[j].robot.Some?
      ensures j in r.robotSegments
    {
      assert s.segments[j].robot.Some?;
    }
  }

  /** After dropping the store listed at `location` and emptying that segment's
      store slot, the remaining list and the slots still agree. */
  lemma DroppedStoreSlots(s: State, r: State, location: int, idx: nat)
    requires Valid(s) && Shaped(r) && 0 <= location < |s.segments| && idx < |s.stores|
    requires s.storeSegments[idx] == location
    requires r.segments == s.segments[location := Segments.RemoveStore(s.segments[location]).segment]
    requires r.stores == RemoveAt(s.stores, idx) && r.storeSegments == RemoveAt(s.storeSegments, idx)
    ensures StoreSlotsAgree(r)
  {
    RemoveAtDistinct(s.storeSegments, idx);
    forall i | 0 <= i < |r.stores|
      ensures r.segments[r.storeSegments[i]].store == Some(r.stores[i].id)
    {
      var i' := if i < idx then i else i + 1;
      assert r.storeSegments[i] == s.storeSegments[i'] && r.stores[i] == s.stores[i'];
      assert s.storeSegments[i'] != location;
    }
    forall j | 0 <= j < |r.segments| && r.segments[j].store.Some?
      ensures j in r.storeSegments
    {
      assert j != location;
      RemoveAtMembership(s.storeSegments, idx, j);
    }
  }

  lemma DroppedStoreIds(s: State, r: State, idx: nat)
    requires StoreIdsFresh(s) && idx < |s.stores|
    requires r.stores == RemoveAt(s.stores, idx) && r.nextId == s.nextId
    ensures StoreIdsFresh(r)
  {
    forall a, b | 0 <= a < b < |r.stores|
      ensures r.stores[a].id != r.stores[b].id
    {
      var a' := if a < idx then a else a + 1;
      var b' := if b < idx then b else b + 1;
      assert r.stores[a] == s.stores[a'] && r.stores[b] == s.stores[b'];
    }
    forall i | 0 <= i < |r.stores|
      ensures r.stores[i].id < r.nextId
    {
      var i' := if i < idx then i else i + 1;
      assert r.stores[i] == s.stores[i'];
    }
  }

  lemma PlaceRobotValid(s: State, location: int)
    requires Valid(s)
    ensures Valid(PlaceRobot(s, location).0)
  {
    var (r, out) := PlaceRobot(s, location);
    if out == Done {
      UnlistedLocationIsEmpty(s, location);
      forall i | 0 <= i < |r.stores|
        ensures r.segments[r.storeSegments[i]].store == Some(r.stores[i].id)
      {
        assert s.storeSegments[i] != location;
      }
      forall j | 0 <= j < |r.segments| && r.segments[j].robot.Some?
        ensures j in r.robotSegments
      {
        if j != location {
          assert j in s.robotSegments;
          var k :| 0 <= k < |s.robotSegments| && s.robotSegments[k] == j;
          assert r.robotSegments[k] == j;
        } else {
          assert r.robotSegments[|s.robotSegments|] == j;
        }
      }
    }
  }

  lemma RemoveRobotValid(s: State, location: int)
    requires Valid(s)
    ensures Valid(RemoveRobot(s, location).0)
  {
    var (r, out) := RemoveRobot(s, location);
    if out == Done {
      var idx := IndexOf(s.robotSegments, location);
      forall i | 0 <= i < |r.stores|
        ensures r.segments[r.storeSegments[i]].store == Some(r.stores[i].id)
      {
      }
      forall j | 0 <= j < |r.segments| && r.segments[j].robot.Some?
        ensures j in r.robotSegments
      {
        assert j != location;
        if idx != -1 {
          RemoveAtMembership(s.robotSegments, idx, j);
        }
      }
    }
  }

  /** Moving robot `idx` from its listed location keeps the invariant, whether or
      not the destination segment accepts it. */
  lemma RelocateValid(s: State, idx: nat, location: int, target: int)
    requires Valid(s) && idx < |s.robots| && location == s.robotSegments[idx]
    requires 0 <= target < |s.segments|
    ensures Valid(Relocate(s, idx, location, target))
  {
    var r := Relocate(s, idx, location, target);
    var cleared := s.segments[location := Segments.RemoveRobot(s.segments[location]).segment];
    var placed := cleared[target := Segments.PlaceRobot(cleared[target], s.robots[idx].id).segment];
    assert r.segments == placed;
    forall j | 0 <= j < |r.segments|
      ensures r.segments[j].index == j && Segments.Consistent(r.segments[j])
    {
      assert Segments.Consistent(s.segments[j]);
      assert Segments.Consistent(cleared[j]);
    }
    forall j | 0 <= j < |r.segments| && r.segments[j].robot.Some?
      ensures j in r.robotSegments
    {
      if j == target {
        assert r.robotSegments[idx] == j;
      } else {
        assert j != location && r.segments[j] == s.segments[j];
        assert j in s.robotSegments;
        var k :| 0 <= k < |s.robotSegments| && s.robotSegments[k] == j;
        assert k != idx && r.robotSegments[k] == j;
      }
    }
    forall i | 0 <= i < |r.stores|
      ensures r.segments[r.storeSegments[i]].store == Some(r.stores[i].id)
    {
      assert r.segments[s.storeSegments[i]].store == s.segments[s.storeSegments[i]].store;
    }
  }

  lemma CollectValid(s: State, idx: nat, target: int)
    requires Valid(s) && idx < |s.robots| && 0 <= target < |s.segments|
    ensures Valid(Collect(s, idx, target).0)
  {
    var (r, c) := Collect(s, idx, target);
    var k := StoreAt(s, target);
    if k != -1 && s.stores[k].coins > 0 {
      SameStoreShape(s, r, k);
      forall i | 0 <= i < |r.stores|
        ensures r.segments[r.storeSegments[i]].store == Some(r.stores[i].id)
      {
        assert r.stores[i].id == s.stores[i].id;
      }
      assert StoreIdsFresh(r) by {
        forall i | 0 <= i < |r.stores|
          ensures r.stores[i].id == s.stores[i].id
        {
        }
      }
    }
  }

  lemma RecordValid(s: State, idx: nat, distance: int, collected: int)
    requires Valid(s) && idx < |s.robots| && distance >= 0
    ensures Valid(Record(s, idx, distance, collected))
  {
  }

  lemma MoveRobotValid(s: State, location: int, meters: int)
    requires Valid(s)
    ensures Valid(MoveRobot(s, location, meters).0)
  {
    if location in s.robotSegments && 0 <= location + meters < |s.segments| {
      MovedRobotValid(s, location, meters);
    } else {
      assert MoveRobot(s, location, meters).0 == s;
    }
  }

  /** A move that goes through: relocate, then collect and record. */
  lemma MovedRobotValid(s: State, location: int, meters: int)
    requires Valid(s) && location in s.robotSegments && 0 <= location + meters < |s.segments|
    ensures Valid(MoveRobot(s, location, meters).0)
  {
    var idx := IndexOf(s.robotSegments, location);
    StepsValid(s, idx, location, location + meters, Abs(meters));
    MovedFromSteps(s, idx, location, meters);
  }

  /** Relocating, collecting and recording, one after the other, preserve the class invariant. */
  lemma StepsValid(s: State, idx: nat, location: int, target: int, distance: int)
    requires Valid(s) && idx < |s.robots| && s.robotSegments[idx] == location
    requires 0 <= target < |s.segments| && distance >= 0
    ensures var c := Collect(Relocate(s, idx, location, target), idx, target);
      Valid(Record(c.0, idx, distance, c.1))
  {
    RelocateValid(s, idx, location, target);
    CollectRecordValid(Relocate(s, idx, location, target), idx, target, distance);
  }

  /** The validity of the three steps carries over to the move they make up. */
  lemma MovedFromSteps(s: State, idx: nat, location: int, meters: int)
    requires Shaped(s) && location in s.robotSegments && 0 <= location + meters < |s.segments|
    requires idx == IndexOf(s.robotSegments, location)
    requires var c := Collect(Relocate(s, idx, location, location + meters), idx, location + meters);
      Valid(Record(c.0, idx, Abs(meters), c.1))
    ensures Valid(MoveRobot(s, location, meters).0)
  {
    MoveRobotSteps(s, location, meters);
  }

  lemma CollectRecordValid(s: State, idx: nat, target: int, distance: int)
    requires Valid(s) && idx < |s.robots| && 0 <= target < |s.segments| && distance >= 0
    ensures var c := Collect(s, idx, target); Valid(Record(c.0, idx, distance, c.1))
  {
    CollectValid(s, idx, target);
    var c := Collect(s, idx, target);
    RecordValid(c.0, idx, distance, c.1);
  }

  lemma {:induction false} ReturnFromValid(s: State, i: nat)
    requires Valid(s) && i <= |s.robots|
    ensures Valid(ReturnFrom(s, i))
    decreases |s.robots| - i
  {
    if i < |s.robots| {
      RelocateValid(s, i, s.robotSegments[i], s.robots[i].initialSegment);
      ReturnFromValid(Relocate(s, i, s.robotSegments[i], s.robots[i].initialSegment), i + 1);
    }
  }

  lemma ReturnRobotsValid(s: State)
    requires Valid(s)
    ensures Valid(ReturnRobots(s))
  {
    ReturnFromValid(s, 0);
  }

  lemma ResupplyStoresValid(s: State)
    requires Valid(s)
    ensures Valid(ResupplyStores(s))
  {
    var r := ResupplyStores(s);
    forall i | 0 <= i < |r.stores|
      ensures r.segments[r.storeSegments[i]].store == Some(r.stores[i].id)
    {
    }
  }

  lemma RebootValid(s: State)
    requires Valid(s)
    ensures Valid(Reboot(s))
  {
    var r := Reboot(s);
    forall j | 0 <= j < |r.segments|
      ensures r.segments[j].index == j && Segments.Consistent(r.segments[j])
    {
    }
  }

  lemma ApplyDayValid(s: State, day: seq<int>)
    requires Valid(s)
    ensures Valid(ApplyDay(s, day))
  {
    if |day| >= 4 && 0 <= day[1] < |s.segments| {
      if day[2] == 1 && day[3] > 0 {
        PlaceStoreValid(s, day[1], day[3]);
      } else if day[2] == 0 {
        PlaceRobotValid(s, day[1]);
      }
    }
  }

  lemma {:induction false} ApplyDaysValid(s: State, days: seq<seq<int>>)
    requires Valid(s)
    ensures Valid(ApplyDays(s, days))
    decreases |days|
  {
    if |days| > 0 {
      ApplyDayValid(s, days[0]);
      ApplyDaysValid(ApplyDay(s, days[0]), days[1..]);
    }
  }

  lemma FromDaysValid(days: seq<seq<int>>)
    ensures Valid(FromDays(days))
  {
    var length := Max(10, MaxLocation(days, 0) + 5);
    InitValid(length);
    ApplyDaysValid(Init(length).value, days);
  }

  lemma AssignValid(s: State, robotLocation: int, storeLocation: int)
    requires Valid(s)
    ensures Valid(Assign(s, robotLocation, storeLocation))
  {
    if robotLocation != storeLocation {
      MovingAssignValid(s, robotLocation, storeLocation);
    } else {
      assert Assign(s, robotLocation, storeLocation) == s;
    }
  }

  lemma MovingAssignValid(s: State, robotLocation: int, storeLocation: int)
    requires Valid(s) && robotLocation != storeLocation
    ensures Valid(Assign(s, robotLocation, storeLocation))
  {
    MoveRobotValid(s, robotLocation, storeLocation - robotLocation);
    AssignFromMove(s, robotLocation, storeLocation);
  }

  /** An assignment at a positive distance is one `moveRobot` by the signed distance. */
  lemma AssignFromMove(s: State, robotLocation: int, storeLocation: int)
    requires Shaped(s) && robotLocation != storeLocation
    requires Valid(MoveRobot(s, robotLocation, storeLocation - robotLocation).0)
    ensures Valid(Assign(s, robotLocation, storeLocation))
  {
    assert Assign(s, robotLocation, storeLocation) == MoveRobot(s, robotLocation, storeLocation - robotLocation).0;
  }

  lemma {:induction false} ApplyPlanValid(s: State, plan: seq<(nat, nat)>, robotLocs: seq<int>, storeLocs: seq<int>)
    requires Valid(s)
    requires forall k :: 0 <= k < |plan| ==> plan[k].0 < |robotLocs| && plan[k].1 < |storeLocs|
    ensures Valid(ApplyPlan(s, plan, robotLocs, storeLocs))
    decreases |plan|
  {
    if |plan| > 0 {
      AssignValid(s, robotLocs[plan[0].0], storeLocs[plan[0].1]);
      ApplyPlanValid(Assign(s, robotLocs[plan[0].0], storeLocs[plan[0].1]), plan[1..], robotLocs, storeLocs);
    }
  }

  lemma MoveRobotsValid(s: State)
    requires Valid(s)
    ensures Valid(MoveRobots(s).0)
  {
    var r := MoveRobots(s);
    if r.1.Assigned? {
      var p := Snapshot(s);
      ApplyPlanValid(s, r.1.plan, p.robotLocs, p.storeLocs);
    }
  }
}
