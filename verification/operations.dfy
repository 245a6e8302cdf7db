/** The SilkRoad operations as pure state transitions. Each mirrors one public
    method: same checks in the same order, same failure cases (the console
    message becomes an `Outcome`), same updates. Visibility changes and the
    shapes' movements are presentation only and are not modelled. */
module Operations {
  import opened Util
  import Stores
  import Robots
  import Segments
  import ProfitBars
  import Roads
  import opened SilkState

  /** What an operation reports (in place of the console messages). */
  datatype Outcome =
    | Done
    | InvalidLocation       // location outside [0, segments.size())
    | StoreAlreadyThere     // a store is listed at the location
    | RobotAlreadyThere     // a robot is listed at the location
    | NoStoreThere          // the segment holds no store
    | NoRobotThere          // no robot is listed (moveRobot) / the segment holds none (removeRobot)
    | BeyondRoadEnd         // location + meters >= segments.size()
    | IndexOutOfBounds      // location + meters < 0: `segments.get` throws before any change
    | Moved(collected: int) // a move took place and collected this many coins

  /** `new SilkRoad(length)`: `new Road(length)` throws unless `length > 0`;
      otherwise one empty segment per road cell, at the cell's pixel position. */
  function Init(length: int): (r: Option<State>)
    ensures r.None? <==> length <= 0
    ensures r.Some? ==> var s := r.value;
      && |s.segments| == length
      && (forall j :: 0 <= j < length ==>
            s.segments[j] == Segments.NewSegment(j, Roads.Pixel(Roads.Spiral(length)[j])))
      && s.stores == [] && s.storeSegments == []
      && s.robots == [] && s.robotSegments == []
      && s.movementHistory == [] && s.coinHistory == []
      && s.totalMovementCosts == 0 && s.bar == ProfitBars.NewBar()
  {
    match Roads.NewRoad(length)
    case None => None
    case Some(road) =>
      var n := Roads.SegmentCount(road);
      var segments := seq(n, i requires 0 <= i < n => Segments.NewSegment(i, Roads.SegmentPosition(road, i).value));
      Some(State(segments, [], [], [], [], [], [], 0, ProfitBars.NewBar(), 0))
  }

  /** `placeStore`: checks the range, then the listed stores, then the listed robots. */
  function PlaceStore(s: State, location: int, tenges: int): (r: (State, Outcome))
    requires Shaped(s)
    ensures Shaped(r.0) && SameGrid(s, r.0)
    ensures !(0 <= location < |s.segments|) ==> r == (s, InvalidLocation)
    ensures 0 <= location < |s.segments| && location in s.storeSegments ==> r == (s, StoreAlreadyThere)
    ensures 0 <= location < |s.segments| && location !in s.storeSegments && location in s.robotSegments ==>
      r == (s, RobotAlreadyThere)
    ensures r.1 == Done <==>
      0 <= location < |s.segments| && location !in s.storeSegments && location !in s.robotSegments
    ensures r.1 == Done ==>
      && r.0.stores == s.stores + [Stores.NewStore(s.nextId, tenges)]
      && r.0.storeSegments == s.storeSegments + [location]
      && RobotsUnchanged(s, r.0)
      && r.0.totalMovementCosts == s.totalMovementCosts
      && r.0.nextId == s.nextId + 1
      && r.0.segments[location] == Segments.PlaceStore(s.segments[location], s.nextId).segment
      && (forall j :: 0 <= j < |s.segments| && j != location ==> r.0.segments[j] == s.segments[j])
      && r.0.bar.maxPossibleProfit == TotalInitialCoins(r.0)
      && r.0.bar.currentProfit == Max(0, TotalCoinsCollected(r.0))
  {
    if !(0 <= location < |s.segments|) then (s, InvalidLocation)
    else if location in s.storeSegments then (s, StoreAlreadyThere)
    else if location in s.robotSegments then (s, RobotAlreadyThere)
    else
      var store := Stores.NewStore(s.nextId, tenges);
      var s1 := s.(
        stores := s.stores + [store],
        storeSegments := s.storeSegments + [location],
        segments := s.segments[location := Segments.PlaceStore(s.segments[location], store.id).segment],
        nextId := s.nextId + 1);
      (s1.(bar := RefreshBar(s1)), Done)
  }

  /** `removeStore`: checks the range, then the segment's store slot (not the list). */
  function RemoveStore(s: State, location: int): (r: (State, Outcome))
    requires Shaped(s)
    ensures Shaped(r.0) && SameGrid(s, r.0)
    ensures !(0 <= location < |s.segments|) ==> r == (s, InvalidLocation)
    ensures 0 <= location < |s.segments| && !Segments.HasStore(s.segments[location]) ==> r == (s, NoStoreThere)
    ensures r.1 == Done <==> 0 <= location < |s.segments| && Segments.HasStore(s.segments[location])
    ensures r.1 == Done ==>
      && r.0.segments == s.segments[location := Segments.RemoveStore(s.segments[location]).segment]
      && RobotsUnchanged(s, r.0)
      && r.0.totalMovementCosts == s.totalMovementCosts
      && r.0.nextId == s.nextId
      && (var idx := IndexOf(s.storeSegments, location);
          if idx == -1 then StoresUnchanged(s, r.0)
          else r.0.stores == RemoveAt(s.stores, idx) && r.0.storeSegments == RemoveAt(s.storeSegments, idx))
      && r.0.bar.maxPossibleProfit == TotalInitialCoins(r.0)
      && r.0.bar.currentProfit == Max(0, TotalCoinsCollected(r.0))
  {
    if !(0 <= location < |s.segments|) then (s, InvalidLocation)
    else if !Segments.HasStore(s.segments[location]) then (s, NoStoreThere)
    else
      var segments := s.segments[location := Segments.RemoveStore(s.segments[location]).segment];
      var idx := IndexOf(s.storeSegments, location);
      var s1 :=
        if idx != -1 then
          s.(segments := segments,
             stores := RemoveAt(s.stores, idx),
             storeSegments := RemoveAt(s.storeSegments, idx))
        else s.(segments := segments);
      (s1.(bar := RefreshBar(s1)), Done)
  }

  /** `placeRobot`: checks the range, then the listed robots, then the listed stores.
      The new robot starts with empty histories; the bar is not updated. */
  function PlaceRobot(s: State, location: int): (r: (State, Outcome))
    requires Shaped(s)
    ensures Shaped(r.0) && SameGrid(s, r.0)
    ensures !(0 <= location < |s.segments|) ==> r == (s, InvalidLocation)
    ensures 0 <= location < |s.segments| && location in s.robotSegments ==> r == (s, RobotAlreadyThere)
    ensures 0 <= location < |s.segments| && location !in s.robotSegments && location in s.storeSegments ==>
      r == (s, StoreAlreadyThere)
    ensures r.1 == Done <==>
      0 <= location < |s.segments| && location !in s.storeSegments && location !in s.robotSegments
    ensures r.1 == Done ==>
      && |r.0.robots| == |s.robots| + 1
      && r.0.robots[..|s.robots|] == s.robots
      && r.0.robots[|s.robots|].id == s.nextId
      && r.0.robots[|s.robots|].initialSegment == location
      && r.0.robots[|s.robots|].dailyCoins == 0
      && r.0.robotSegments == s.robotSegments + [location]
      && r.0.movementHistory == s.movementHistory + [[]]
      && r.0.coinHistory == s.coinHistory + [[]]
      && StoresUnchanged(s, r.0)
      && r.0.totalMovementCosts == s.totalMovementCosts && r.0.bar == s.bar
      && r.0.nextId == s.nextId + 1
      && r.0.segments[location] == Segments.PlaceRobot(s.segments[location], s.nextId).segment
      && (forall j :: 0 <= j < |s.segments| && j != location ==> r.0.segments[j] == s.segments[j])
  {
    if !(0 <= location < |s.segments|) then (s, InvalidLocation)
    else if location in s.robotSegments then (s, RobotAlreadyThere)
    else if location in s.storeSegments then (s, StoreAlreadyThere)
    else
      var pos := s.segments[location].position;
      var robot := Robots.NewRobot(s.nextId, pos.x + ObjectOffset, pos.y + ObjectOffset, location);
      (s.(
        robots := s.robots + [robot],
        robotSegments := s.robotSegments + [location],
        movementHistory := s.movementHistory + [[]],
        coinHistory := s.coinHistory + [[]],
        segments := s.segments[location := Segments.PlaceRobot(s.segments[location], robot.id).segment],
        nextId := s.nextId + 1), Done)
  }

  /** `removeRobot`: checks the range, then the segment's robot slot; then drops
      the FIRST robot listed at the location, with its histories. */
  function RemoveRobot(s: State, location: int): (r: (State, Outcome))
    requires Shaped(s)
    ensures Shaped(r.0) && SameGrid(s, r.0)
    ensures !(0 <= location < |s.segments|) ==> r == (s, InvalidLocation)
    ensures 0 <= location < |s.segments| && !Segments.HasRobot(s.segments[location]) ==> r == (s, NoRobotThere)
    ensures r.1 == Done <==> 0 <= location < |s.segments| && Segments.HasRobot(s.segments[location])
    ensures r.1 == Done ==>
      && r.0.segments == s.segments[location := Segments.RemoveRobot(s.segments[location]).segment]
      && StoresUnchanged(s, r.0)
      && r.0.totalMovementCosts == s.totalMovementCosts && r.0.bar == s.bar && r.0.nextId == s.nextId
      && (var idx := IndexOf(s.robotSegments, location);
          if idx == -1 then RobotsUnchanged(s, r.0)
          else
            && r.0.robots == RemoveAt(s.robots, idx)
            && r.0.robotSegments == RemoveAt(s.robotSegments, idx)
            && r.0.movementHistory == RemoveAt(s.movementHistory, idx)
            && r.0.coinHistory == RemoveAt(s.coinHistory, idx))
  {
    if !(0 <= location < |s.segments|) then (s, InvalidLocation)
    else if !Segments.HasRobot(s.segments[location]) then (s, NoRobotThere)
    else
      var segments := s.segments[location := Segments.RemoveRobot(s.segments[location]).segment];
      var idx := IndexOf(s.robotSegments, location);
      if idx != -1 then
        (s.(segments := segments,
            robots := RemoveAt(s.robots, idx),
            robotSegments := RemoveAt(s.robotSegments, idx),
            movementHistory := RemoveAt(s.movementHistory, idx),
            coinHistory := RemoveAt(s.coinHistory, idx)), Done)
      else (s.(segments := segments), Done)
  }

  /** The position in `stores` of the store object held by segment `location`, or -1. */
  function StoreAt(s: State, location: int): (k: int)
    requires 0 <= location < |s.segments|
    ensures -1 <= k < |s.stores|
    ensures s.segments[location].store.None? ==> k == -1
    ensures k >= 0 ==> s.segments[location].store == Some(s.stores[k].id)
    ensures s.segments[location].store.Some? && k == -1 ==>
      forall i :: 0 <= i < |s.stores| ==> s.stores[i].id != s.segments[location].store.value
  {
    match s.segments[location].store
    case None => -1
    case Some(id) => FindStore(s.stores, id)
  }

  /** The robot-moving part shared by `moveRobot` and `returnRobots`: robot `idx`
      is removed from segment `location`'s robot slot, offered to segment
      `target` (which refuses it if occupied), listed at `target`, and its body
      moved to that segment's position. */
  function Relocate(s: State, idx: nat, location: int, target: int): (r: State)
    requires Shaped(s) && idx < |s.robots|
    requires 0 <= location < |s.segments| && 0 <= target < |s.segments|
    ensures Shaped(r) && SameGrid(s, r)
    ensures r.robotSegments == s.robotSegments[idx := target]
    ensures |r.robots| == |s.robots|
    ensures forall k :: 0 <= k < |s.robots| && k != idx ==> r.robots[k] == s.robots[k]
    ensures r.robots[idx].id == s.robots[idx].id && r.robots[idx].initialSegment == s.robots[idx].initialSegment
    ensures r.robots[idx].dailyCoins == s.robots[idx].dailyCoins
    ensures StoresUnchanged(s, r) && r.movementHistory == s.movementHistory && r.coinHistory == s.coinHistory
    ensures r.totalMovementCosts == s.totalMovementCosts && r.bar == s.bar && r.nextId == s.nextId
    ensures forall j :: 0 <= j < |s.segments| ==> r.segments[j].store == s.segments[j].store
    ensures r.robots[idx].x == s.segments[target].position.x + ObjectOffset
    ensures r.robots[idx].y == s.segments[target].position.y + ObjectOffset
    ensures forall j :: 0 <= j < |s.segments| && j != location && j != target ==> r.segments[j] == s.segments[j]
    ensures location != target ==> r.segments[location].robot == None
    ensures location != target && Segments.IsOccupied(s.segments[target]) ==> r.segments[target] == s.segments[target]
    ensures location != target && !Segments.IsOccupied(s.segments[target]) ==>
      r.segments[target].robot == Some(s.robots[idx].id)
    ensures location == target ==>
      r.segments[target].robot == (if s.segments[target].store.None? then Some(s.robots[idx].id) else None)
  {
    var pos := s.segments[target].position;
    var robot := Robots.MoveTo(s.robots[idx], pos.x + ObjectOffset, pos.y + ObjectOffset);
    var cleared := s.segments[location := Segments.RemoveRobot(s.segments[location]).segment];
    var placed := cleared[target := Segments.PlaceRobot(cleared[target], robot.id).segment];
    s.(
      robots := s.robots[idx := robot],
      robotSegments := s.robotSegments[idx := target],
      segments := placed)
  }

  /** The collection step of `moveRobot`: a robot arriving at a segment that holds
      a store with coins takes `min(coins, remaining capacity)` of them. */
  function Collect(s: State, idx: nat, target: int): (r: (State, int))
    requires Shaped(s) && idx < |s.robots| && 0 <= target < |s.segments|
    ensures Shaped(r.0)
    ensures r.0.segments == s.segments && r.0.storeSegments == s.storeSegments
    ensures r.0.robotSegments == s.robotSegments && r.0.movementHistory == s.movementHistory
    ensures r.0.coinHistory == s.coinHistory && r.0.totalMovementCosts == s.totalMovementCosts
    ensures r.0.nextId == s.nextId
    ensures var k := StoreAt(s, target);
      if k != -1 && s.stores[k].coins > 0 then
        && r.1 == Min(s.stores[k].coins, MaxInt)
        && r.0.stores == s.stores[k := Stores.SetCoins(s.stores[k], s.stores[k].coins - r.1)]
        && r.0.robots == s.robots[idx := Robots.AddCoins(s.robots[idx], r.1)]
        && r.0.bar.maxPossibleProfit == TotalInitialCoins(r.0)
        && r.0.bar.currentProfit == Max(0, TotalCoinsCollected(r.0))
      else r == (s, 0)
  {
    var k := StoreAt(s, target);
    if k == -1 then
      // Java would still collect from a store object that is not listed; the model
      // replaces that case by a no-op, which SilkState.SegmentStoreIsListedStore
      // shows cannot arise from a valid state
      (s, 0)
    else
      var store := s.stores[k];
      var robot := s.robots[idx];
      if store.coins > 0 && Robots.CanCollectMore(robot) then
        var canCollect := Min(store.coins, Robots.RemainingCapacity(robot));
        if canCollect > 0 then
          var s1 := s.(
            robots := s.robots[idx := Robots.AddCoins(robot, canCollect)],
            stores := s.stores[k := Stores.SetCoins(store, store.coins - canCollect)]);
          (s1.(bar := RefreshBar(s1)), canCollect)
        else (s, 0)
      else (s, 0)
  }

  /** `moveRobot`: moves the FIRST robot listed at `location` by `meters` (either sign).
      The segment placement at the destination may be refused (it holds a store
      or another robot); the robot's listed location changes regardless. */
  function MoveRobot(s: State, location: int, meters: int): (r: (State, Outcome))
    requires Shaped(s)
    ensures Shaped(r.0) && SameGrid(s, r.0)
    ensures location !in s.robotSegments ==> r == (s, NoRobotThere)
    ensures location in s.robotSegments && location + meters >= |s.segments| ==> r == (s, BeyondRoadEnd)
    ensures location in s.robotSegments && location + meters < 0 ==> r == (s, IndexOutOfBounds)
    ensures r.1.Moved? <==> location in s.robotSegments && 0 <= location + meters < |s.segments|
    ensures r.1.Moved? ==>
      && r.1.collected >= 0
      && r.0.totalMovementCosts == s.totalMovementCosts + Abs(meters)
      && |r.0.robots| == |s.robots| && |r.0.stores| == |s.stores|
      && r.0.storeSegments == s.storeSegments && r.0.nextId == s.nextId
  {
    var idx := IndexOf(s.robotSegments, location);
    if idx == -1 then (s, NoRobotThere)
    else
      var target := location + meters;
      if target >= |s.segments| then (s, BeyondRoadEnd)
      else if target < 0 then (s, IndexOutOfBounds)
      else
        var s1 := Relocate(s, idx, location, target);
        var c := Collect(s1, idx, target);
        (Record(c.0, idx, Abs(meters), c.1), Moved(c.1))
  }

  /** A move that takes place is `Relocate`, then `Collect`, then `Record`. */
  lemma MoveRobotSteps(s: State, location: int, meters: int)
    requires Shaped(s) && location in s.robotSegments && 0 <= location + meters < |s.segments|
    ensures var idx := IndexOf(s.robotSegments, location);
      var c := Collect(Relocate(s, idx, location, location + meters), idx, location + meters);
      MoveRobot(s, location, meters) == (Record(c.0, idx, Abs(meters), c.1), Moved(c.1))
  {
  }

  /** `t` is `s` after robot `idx` went to `target`, walking `distance` metres and
      taking `collected` coins: its listed location and histories grow by this
      move, its coins by what it took, and every other robot is unchanged. */
  predicate MovedBy(s: State, t: State, idx: nat, target: int, distance: int, collected: int)
    requires Shaped(s) && Shaped(t) && idx < |s.robots| && |t.robots| == |s.robots|
  {
    && t.robotSegments == s.robotSegments[idx := target]
    && t.movementHistory == s.movementHistory[idx := s.movementHistory[idx] + [distance]]
    && t.coinHistory == s.coinHistory[idx := s.coinHistory[idx] + [collected]]
    && (forall i :: 0 <= i < |s.robots| && i != idx ==> t.robots[i] == s.robots[i])
    && t.robots[idx].id == s.robots[idx].id
    && t.robots[idx].initialSegment == s.robots[idx].initialSegment
    && t.robots[idx].dailyCoins == s.robots[idx].dailyCoins + collected
  }

  /** What a move that takes place does: the robot listed first at `location`
      moves, with its histories and coins, and no other robot changes. */
  lemma MoveRobotMoves(s: State, location: int, meters: int)
    requires Shaped(s) && location in s.robotSegments && 0 <= location + meters < |s.segments|
    ensures var r := MoveRobot(s, location, meters);
      && r.1.Moved?
      && MovedBy(s, r.0, IndexOf(s.robotSegments, location), location + meters, Abs(meters), r.1.collected)
  {
    var idx := IndexOf(s.robotSegments, location);
    var c := Collect(Relocate(s, idx, location, location + meters), idx, location + meters);
    StepsMove(s, idx, location, location + meters, Abs(meters));
    MoveRobotSteps(s, location, meters);
    assert MoveRobot(s, location, meters) == (Record(c.0, idx, Abs(meters), c.1), Moved(c.1));
  }

  /** Relocating robot `idx`, collecting and recording move that robot only. */
  lemma StepsMove(s: State, idx: nat, location: int, target: int, distance: int)
    requires Shaped(s) && idx < |s.robots|
    requires 0 <= location < |s.segments| && 0 <= target < |s.segments|
    ensures var c := Collect(Relocate(s, idx, location, target), idx, target);
      MovedBy(s, Record(c.0, idx, distance, c.1), idx, target, distance, c.1)
  {
  }

  /** `t` is `s` after a robot took `collected` coins at the store in list position
      `k` (-1: no listed store): from a store with a positive balance it takes
      `min(coins, MAX_VALUE)`, the store keeps the rest and the bar is refreshed;
      otherwise nothing is taken and the stores and bar are unchanged. */
  predicate TookFrom(s: State, t: State, k: int, collected: int)
    requires -1 <= k < |s.stores|
  {
    if k != -1 && s.stores[k].coins > 0 then
      && collected == Min(s.stores[k].coins, MaxInt)
      && t.stores == s.stores[k := Stores.SetCoins(s.stores[k], s.stores[k].coins - collected)]
      && t.bar.maxPossibleProfit == TotalInitialCoins(t)
      && t.bar.currentProfit == Max(0, TotalCoinsCollected(t))
    else collected == 0 && t.stores == s.stores && t.bar == s.bar
  }

  /** What a move that takes place does to the stores and the bar, by the store
      listed at the destination. */
  lemma MoveRobotCollects(s: State, location: int, meters: int)
    requires Shaped(s) && location in s.robotSegments && 0 <= location + meters < |s.segments|
    ensures var r := MoveRobot(s, location, meters);
      && r.1.Moved?
      && TookFrom(s, r.0, StoreAt(s, location + meters), r.1.collected)
  {
    var idx := IndexOf(s.robotSegments, location);
    var c := Collect(Relocate(s, idx, location, location + meters), idx, location + meters);
    StepsCollect(s, idx, location, location + meters, Abs(meters));
    MoveRobotSteps(s, location, meters);
    assert MoveRobot(s, location, meters) == (Record(c.0, idx, Abs(meters), c.1), Moved(c.1));
  }

  /** Relocating, collecting and recording take from the store listed at the target. */
  lemma StepsCollect(s: State, idx: nat, location: int, target: int, distance: int)
    requires Shaped(s) && idx < |s.robots|
    requires 0 <= location < |s.segments| && 0 <= target < |s.segments|
    ensures var c := Collect(Relocate(s, idx, location, target), idx, target);
      TookFrom(s, Record(c.0, idx, distance, c.1), StoreAt(s, target), c.1)
  {
    assert StoreAt(Relocate(s, idx, location, target), target) == StoreAt(s, target);
  }

  /** The bookkeeping at the end of `moveRobot`: the move's distance and takings
      are appended to the robot's histories and the distance charged as cost. */
  function Record(s: State, idx: nat, distance: int, collected: int): (r: State)
    requires Shaped(s) && idx < |s.robots|
    ensures Shaped(r) && r.segments == s.segments
    ensures r.movementHistory == s.movementHistory[idx := s.movementHistory[idx] + [distance]]
    ensures r.coinHistory == s.coinHistory[idx := s.coinHistory[idx] + [collected]]
    ensures r.totalMovementCosts == s.totalMovementCosts + distance
    ensures r.robots == s.robots && r.robotSegments == s.robotSegments && StoresUnchanged(s, r)
    ensures r.bar == s.bar && r.nextId == s.nextId
  {
    s.(
      movementHistory := s.movementHistory[idx := s.movementHistory[idx] + [distance]],
      coinHistory := s.coinHistory[idx := s.coinHistory[idx] + [collected]],
      totalMovementCosts := s.totalMovementCosts + distance)
  }

  /** `returnRobots`' loop from robot `i` on: each robot leaves its listed segment
      and is offered to its home segment. */
  function ReturnFrom(s: State, i: nat): (r: State)
    requires Shaped(s) && i <= |s.robots|
    ensures Shaped(r) && SameGrid(s, r)
    ensures |r.robots| == |s.robots|
    ensures forall k :: 0 <= k < i ==> r.robotSegments[k] == s.robotSegments[k] && r.robots[k] == s.robots[k]
    ensures forall k :: i <= k < |s.robots| ==>
      && r.robotSegments[k] == s.robots[k].initialSegment
      && r.robots[k].id == s.robots[k].id
      && r.robots[k].initialSegment == s.robots[k].initialSegment
      && r.robots[k].dailyCoins == s.robots[k].dailyCoins
    ensures StoresUnchanged(s, r) && r.movementHistory == s.movementHistory && r.coinHistory == s.coinHistory
    ensures r.totalMovementCosts == s.totalMovementCosts && r.bar == s.bar && r.nextId == s.nextId
    ensures forall j :: 0 <= j < |s.segments| ==> r.segments[j].store == s.segments[j].store
    decreases |s.robots| - i
  {
    if i == |s.robots| then s else ReturnFrom(Relocate(s, i, s.robotSegments[i], s.robots[i].initialSegment), i + 1)
  }

  /** `returnRobots`: every robot goes home, the day's histories are cleared and
      the movement costs reset; the coins collected are kept. */
  function ReturnRobots(s: State): (r: State)
    requires Shaped(s)
    ensures Shaped(r) && SameGrid(s, r)
    ensures |r.robots| == |s.robots|
    ensures forall k :: 0 <= k < |s.robots| ==>
      && r.robotSegments[k] == s.robots[k].initialSegment
      && r.robots[k].id == s.robots[k].id
      && r.robots[k].initialSegment == s.robots[k].initialSegment
      && r.robots[k].dailyCoins == s.robots[k].dailyCoins
    ensures forall k :: 0 <= k < |s.robots| ==> r.movementHistory[k] == [] && r.coinHistory[k] == []
    ensures r.totalMovementCosts == 0
    ensures StoresUnchanged(s, r) && r.bar == s.bar && r.nextId == s.nextId
  {
    var t := ReturnFrom(s, 0);
    t.(
      movementHistory := seq(|t.movementHistory|, _ => []),
      coinHistory := seq(|t.coinHistory|, _ => []),
      totalMovementCosts := 0)
  }

  /** `resupplyStores`: every store is restocked to its initial coins; counters stay. */
  function ResupplyStores(s: State): (r: State)
    requires Shaped(s)
    ensures Shaped(r) && r.segments == s.segments
    ensures |r.stores| == |s.stores| && r.storeSegments == s.storeSegments
    ensures forall i :: 0 <= i < |s.stores| ==>
      && r.stores[i].coins == s.stores[i].initialCoins
      && r.stores[i].initialCoins == s.stores[i].initialCoins
      && r.stores[i].timesEmptied == s.stores[i].timesEmptied
      && r.stores[i].id == s.stores[i].id
    ensures RobotsUnchanged(s, r) && r.totalMovementCosts == s.totalMovementCosts && r.nextId == s.nextId
    ensures r.bar.maxPossibleProfit == TotalInitialCoins(r)
    ensures r.bar.currentProfit == Max(0, TotalCoinsCollected(r))
  {
    var s1 := s.(stores := seq(|s.stores|, i requires 0 <= i < |s.stores| => Stores.Restock(s.stores[i])));
    s1.(bar := RefreshBar(s1))
  }

  /** `reboot`: every store and robot is discarded, every segment emptied, costs
      and the bar reset. (Identities already handed out are not reused.) */
  function Reboot(s: State): (r: State)
    ensures SameGrid(s, r)
    ensures forall j :: 0 <= j < |s.segments| ==>
      r.segments[j].store.None? && r.segments[j].robot.None? && !r.segments[j].occupied
    ensures r.stores == [] && r.storeSegments == []
    ensures r.robots == [] && r.robotSegments == [] && r.movementHistory == [] && r.coinHistory == []
    ensures r.totalMovementCosts == 0 && r.bar == ProfitBars.NewBar() && r.nextId == s.nextId
  {
    var cleared := seq(|s.segments|, j requires 0 <= j < |s.segments| =>
      Segments.RemoveRobot(Segments.RemoveStore(s.segments[j]).segment).segment);
    State(cleared, [], [], [], [], [], [], 0, ProfitBars.Reset(s.bar), s.nextId)
  }

  /** The first loop of `new SilkRoad(int[][] days)`: the largest `day[1]` of the
      entries that have one, and at least `start`. */
  function MaxLocation(days: seq<seq<int>>, start: int): (m: int)
    ensures m >= start
    ensures forall i :: 0 <= i < |days| && |days[i]| >= 2 ==> days[i][1] <= m
    ensures m == start || exists i :: 0 <= i < |days| && |days[i]| >= 2 && days[i][1] == m
    decreases |days|
  {
    if |days| == 0 then start
    else
      var next := if |days[0]| >= 2 && days[0][1] > start then days[0][1] else start;
      var m := MaxLocation(days[1..], next);
      assert forall i :: 1 <= i < |days| ==> days[i] == days[1..][i - 1];
      m
  }

  /** Entry `day` asks for a store holding `coins` at `location`; only a positive
      balance is asked for, a type-1 entry with `value <= 0` is skipped. */
  predicate AsksStore(day: seq<int>, location: int, coins: int) {
    |day| >= 4 && day[1] == location && day[2] == 1 && day[3] == coins && coins > 0
  }

  /** Entry `day` asks for a robot at `location`. */
  predicate AsksRobot(day: seq<int>, location: int) {
    |day| >= 4 && day[1] == location && day[2] == 0
  }

  /** Entry `day` asks for an object on a segment of a road of `length` cells. */
  predicate AsksOnRoad(day: seq<int>, length: int) {
    |day| >= 4 && 0 <= day[1] < length && (day[2] == 0 || (day[2] == 1 && day[3] > 0))
  }

  /** `t` is `s` with objects placed only: every list of `s` is a prefix of the same
      list of `t`, and nothing has been charged. */
  predicate Extends(s: State, t: State) {
    && s.stores <= t.stores && s.storeSegments <= t.storeSegments
    && s.robots <= t.robots && s.robotSegments <= t.robotSegments
    && s.movementHistory <= t.movementHistory && s.coinHistory <= t.coinHistory
    && t.totalMovementCosts == s.totalMovementCosts
  }

  /** Some entry of `days` asks for a store holding `coins` at `location`. */
  predicate StoreAsked(days: seq<seq<int>>, location: int, coins: int) {
    exists d :: d in days && AsksStore(d, location, coins)
  }

  /** Some entry of `days` asks for a robot at `location`. */
  predicate RobotAsked(days: seq<seq<int>>, location: int) {
    exists d :: d in days && AsksRobot(d, location)
  }

  /** Every store `t` lists beyond those of `s` was asked for by an entry of `days`,
      with its location and balance. */
  predicate StoresFrom(s: State, t: State, days: seq<seq<int>>)
    requires Shaped(t)
  {
    forall k :: |s.stores| <= k < |t.stores| ==>
      StoreAsked(days, t.storeSegments[k], t.stores[k].initialCoins)
  }

  /** Every robot `t` lists beyond those of `s` was asked for by an entry of `days`
      at its location, and it has neither coins nor recorded moves. */
  predicate RobotsFrom(s: State, t: State, days: seq<seq<int>>)
    requires Shaped(t)
  {
    forall k :: |s.robots| <= k < |t.robots| ==>
      && t.robots[k].dailyCoins == 0 && t.movementHistory[k] == [] && t.coinHistory[k] == []
      && RobotAsked(days, t.robotSegments[k])
  }

  /** Every location an entry of `days` asks to fill has a store or a robot listed at it in `t`. */
  predicate Honoured(t: State, days: seq<seq<int>>) {
    forall d :: d in days && AsksOnRoad(d, |t.segments|) ==>
      d[1] in t.robotSegments || d[1] in t.storeSegments
  }

  /** One entry of the day plan: `[_, location, type, value]`. Entries shorter than
      four, with a location off the road, or of type 1 with a value <= 0 are
      skipped; type 1 places a store, type 0 a robot, other types nothing. */
  function ApplyDay(s: State, day: seq<int>): (r: State)
    requires Shaped(s)
    ensures Shaped(r) && SameGrid(s, r)
    ensures |day| < 4 || !(0 <= day[1] < |s.segments|) ==> r == s
    ensures |day| >= 4 && 0 <= day[1] < |s.segments| && day[2] == 1 ==>
      r == (if day[3] > 0 then PlaceStore(s, day[1], day[3]).0 else s)
    ensures |day| >= 4 && 0 <= day[1] < |s.segments| && day[2] == 0 ==> r == PlaceRobot(s, day[1]).0
    ensures |day| >= 4 && day[2] != 0 && day[2] != 1 ==> r == s
    ensures Extends(s, r) && StoresFrom(s, r, [day]) && RobotsFrom(s, r, [day])
    ensures AsksOnRoad(day, |s.segments|) ==> day[1] in r.robotSegments || day[1] in r.storeSegments
  {
    if |day| < 4 then s
    else
      var location := day[1];
      var kind := day[2];
      var value := day[3];
      if location < 0 || location >= |s.segments| then s
      else if kind == 1 then
        if value > 0 then
          assert day in [day] && AsksStore(day, location, value);
          PlaceStore(s, location, value).0
        else s
      else if kind == 0 then
        assert day in [day] && AsksRobot(day, location);
        PlaceRobot(s, location).0
      else s
  }

  predicate AllStoresPositive(s: State) {
    forall i :: 0 <= i < |s.stores| ==> s.stores[i].initialCoins > 0
  }

  /** The day entries applied in order. Objects are only ever added: the new stores
      and robots are exactly ones the entries asked for, and every location an entry
      asks to fill ends up with a store or a robot listed at it, by that entry or an
      earlier one. */
  function ApplyDays(s: State, days: seq<seq<int>>): (r: State)
    requires Shaped(s)
    ensures Shaped(r) && SameGrid(s, r)
    ensures AllStoresPositive(s) ==> AllStoresPositive(r)
    ensures Extends(s, r) && StoresFrom(s, r, days) && RobotsFrom(s, r, days)
    ensures Honoured(r, days)
    decreases |days|
  {
    if |days| == 0 then s
    else
      var s1 := ApplyDay(s, days[0]);
      var r := ApplyDays(s1, days[1..]);
      DaysStep(s, s1, r, days);
      r
  }

  /** The facts of one entry followed by those of the remaining entries give those
      of the whole plan. */
  lemma DaysStep(s: State, s1: State, r: State, days: seq<seq<int>>)
    requires |days| > 0 && Shaped(s) && Shaped(s1) && Shaped(r)
    requires SameGrid(s, s1) && SameGrid(s1, r)
    requires Extends(s, s1) && StoresFrom(s, s1, [days[0]]) && RobotsFrom(s, s1, [days[0]])
    requires AsksOnRoad(days[0], |s.segments|) ==> days[0][1] in s1.robotSegments || days[0][1] in s1.storeSegments
    requires Extends(s1, r) && StoresFrom(s1, r, days[1..]) && RobotsFrom(s1, r, days[1..])
    requires Honoured(r, days[1..])
    ensures Extends(s, r) && StoresFrom(s, r, days) && RobotsFrom(s, r, days)
    ensures Honoured(r, days)
  {
    assert |s1.segments| == |s.segments| == |r.segments|;
    forall k | |s.stores| <= k < |r.stores|
      ensures StoreAsked(days, r.storeSegments[k], r.stores[k].initialCoins)
    {
      if k < |s1.stores| {
        assert r.storeSegments[k] == s1.storeSegments[k] && r.stores[k] == s1.stores[k];
        assert days[0] in days;
      } else {
        assert StoreAsked(days[1..], r.storeSegments[k], r.stores[k].initialCoins);
        var d :| d in days[1..] && AsksStore(d, r.storeSegments[k], r.stores[k].initialCoins);
        assert d in days;
      }
    }
    forall k | |s.robots| <= k < |r.robots|
      ensures && r.robots[k].dailyCoins == 0 && r.movementHistory[k] == [] && r.coinHistory[k] == []
              && RobotAsked(days, r.robotSegments[k])
    {
      if k < |s1.robots| {
        assert r.robots[k] == s1.robots[k] && r.robotSegments[k] == s1.robotSegments[k];
        assert r.movementHistory[k] == s1.movementHistory[k] && r.coinHistory[k] == s1.coinHistory[k];
        assert days[0] in days;
      } else {
        assert RobotAsked(days[1..], r.robotSegments[k]);
        var d :| d in days[1..] && AsksRobot(d, r.robotSegments[k]);
        assert d in days;
      }
    }
    forall d | d in days && AsksOnRoad(d, |r.segments|)
      ensures d[1] in r.robotSegments || d[1] in r.storeSegments
    {
      if d in days[1..] {
      } else {
        assert d == days[0];
        if d[1] in s1.robotSegments {
          PrefixMember(s1.robotSegments, r.robotSegments, d[1]);
        } else {
          PrefixMember(s1.storeSegments, r.storeSegments, d[1]);
        }
      }
    }
  }

  /** Whatever a prefix holds, the longer list holds too. */
  lemma PrefixMember(a: seq<int>, b: seq<int>, x: int)
    requires a <= b && x in a
    ensures x in b
  {
    var i :| 0 <= i < |a| && a[i] == x;
    assert b[i] == x;
  }

  /** `new SilkRoad(int[][] days)`: a road of `max(10, maxLocation + 5)` cells,
      then the entries applied in order. Every store it creates has a positive
      balance, unlike a store placed directly with `placeStore`. */
  function FromDays(days: seq<seq<int>>): (r: State)
    ensures Shaped(r)
    ensures |r.segments| == Max(10, MaxLocation(days, 0) + 5)
    ensures AllStoresPositive(r)
    ensures r.totalMovementCosts == 0
    ensures StoresFrom(Init(|r.segments|).value, r, days) && RobotsFrom(Init(|r.segments|).value, r, days)
    ensures Honoured(r, days)
  {
    var length := Max(10, MaxLocation(days, 0) + 5);
    var init := Init(length);
    assert init.Some?;
    var s0 := init.value;
    assert Shaped(s0);
    assert AllStoresPositive(s0);
    ApplyDays(s0, days)
  }
}
