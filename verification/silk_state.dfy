/** The state of a SilkRoad simulation and its class invariant.

    The simulation keeps two layers of occupancy. The parallel lists
    (`stores`/`storeSegments`, and `robots`/`robotSegments` with the two
    per-robot histories) record who is where; the segments' slots record
    which store or robot object each cell holds. Placement consults the
    lists, removal consults the segments, and a move records the robot's new
    location in the list even when the destination cell refuses it. So a
    robot can be listed on a store's cell, or on another robot's cell, without
    being in that segment: the invariant below holds no disjointness of
    listed locations, only the per-segment "at most one occupant". */
module SilkState {
  import opened Util
  import opened Stores
  import opened Robots
  import opened Segments
  import opened ProfitBars

  /** Pixels from a cell's corner to the body of the store or robot drawn in it. */
  const ObjectOffset: int := 20

  datatype State = State(
    segments: seq<Segment>,
    stores: seq<Store>,
    storeSegments: seq<int>,
    robots: seq<Robot>,
    robotSegments: seq<int>,
    movementHistory: seq<seq<int>>,  // per robot: metres of each move today
    coinHistory: seq<seq<int>>,      // per robot: coins collected by each move today
    totalMovementCosts: int,
    bar: ProfitBar,
    nextId: nat)                     // identity of the next store or robot created

  /** The part of the invariant the Java code relies on not to throw: equal list
      lengths and locations that index the segment list. */
  predicate Shaped(s: State) {
    && |s.stores| == |s.storeSegments|
    && |s.robots| == |s.robotSegments|
    && |s.movementHistory| == |s.robots|
    && |s.coinHistory| == |s.robots|
    && (forall i :: 0 <= i < |s.robots| ==> |s.movementHistory[i]| == |s.coinHistory[i]|)
    && (forall i :: 0 <= i < |s.storeSegments| ==> 0 <= s.storeSegments[i] < |s.segments|)
    && (forall i :: 0 <= i < |s.robotSegments| ==> 0 <= s.robotSegments[i] < |s.segments|)
    && (forall i :: 0 <= i < |s.robots| ==> 0 <= s.robots[i].initialSegment < |s.segments|)
  }

  /** Each segment knows its own index and holds at most one occupant. */
  predicate SegmentsSound(s: State) {
    forall j :: 0 <= j < |s.segments| ==> s.segments[j].index == j && Consistent(s.segments[j])
  }

  /** The listed stores and the segments' store slots agree exactly: at most one
      store per location, each listed store sits in its segment, and a segment
      holds a store only where one is listed. */
  predicate StoreSlotsAgree(s: State)
    requires Shaped(s)
  {
    && Distinct(s.storeSegments)
    && (forall i :: 0 <= i < |s.stores| ==> s.segments[s.storeSegments[i]].store == Some(s.stores[i].id))
    && (forall j :: 0 <= j < |s.segments| && s.segments[j].store.Some? ==> j in s.storeSegments)
  }

  /** A segment holds a robot only where some robot is listed. */
  predicate RobotSlotsListed(s: State) {
    forall j :: 0 <= j < |s.segments| && s.segments[j].robot.Some? ==> j in s.robotSegments
  }

  /** Store identities are distinct and below the next identity handed out. */
  predicate StoreIdsFresh(s: State) {
    && (forall i :: 0 <= i < |s.stores| ==> s.stores[i].id < s.nextId)
    && (forall i, k :: 0 <= i < k < |s.stores| ==> s.stores[i].id != s.stores[k].id)
  }

  function InitialCoins(stores: seq<Store>): (r: seq<int>)
    ensures |r| == |stores| && forall i :: 0 <= i < |stores| ==> r[i] == stores[i].initialCoins
  {
    seq(|stores|, i requires 0 <= i < |stores| => stores[i].initialCoins)
  }

  function DailyCoins(robots: seq<Robot>): (r: seq<int>)
    ensures |r| == |robots| && forall i :: 0 <= i < |robots| ==> r[i] == robots[i].dailyCoins
  {
    seq(|robots|, i requires 0 <= i < |robots| => robots[i].dailyCoins)
  }

  /** `getTotalInitialCoinsInStores`. */
  function TotalInitialCoins(s: State): int {
    Sum(InitialCoins(s.stores))
  }

  /** `getTotalCoinsCollected`. */
  function TotalCoinsCollected(s: State): int {
    Sum(DailyCoins(s.robots))
  }

  /** The bar's ceiling tracks the stores' initial coins, its value is never
      negative, and movement costs are never negative. */
  predicate Accounting(s: State) {
    && s.totalMovementCosts >= 0
    && s.bar.maxPossibleProfit == TotalInitialCoins(s)
    && s.bar.currentProfit >= 0
  }

  /** The class invariant: it holds after construction and after every operation. */
  predicate Valid(s: State) {
    && Shaped(s)
    && SegmentsSound(s)
    && StoreSlotsAgree(s)
    && RobotSlotsListed(s)
    && StoreIdsFresh(s)
    && Accounting(s)
  }

  /** The road itself never changes: same number of segments, same indices and positions. */
  predicate SameGrid(s: State, t: State) {
    && |t.segments| == |s.segments|
    && forall j :: 0 <= j < |s.segments| ==>
         t.segments[j].index == s.segments[j].index && t.segments[j].position == s.segments[j].position
  }

  predicate StoresUnchanged(s: State, t: State) {
    t.stores == s.stores && t.storeSegments == s.storeSegments
  }

  predicate RobotsUnchanged(s: State, t: State) {
    && t.robots == s.robots && t.robotSegments == s.robotSegments
    && t.movementHistory == s.movementHistory && t.coinHistory == s.coinHistory
  }

  /** The two progress-bar updates made after a change of coins. */
  function RefreshBar(s: State): (b: ProfitBar)
    ensures b.maxPossibleProfit == TotalInitialCoins(s)
    ensures b.currentProfit >= 0 && b.currentProfit >= TotalCoinsCollected(s)
    ensures b.currentProfit == TotalCoinsCollected(s) || b.currentProfit == 0
  {
    UpdateCurrentProfit(UpdateMaxProfit(s.bar, TotalInitialCoins(s)), TotalCoinsCollected(s))
  }

  /** The position in `stores` of the store object with identity `id`, or -1. */
  function FindStore(stores: seq<Store>, id: nat): (r: int)
    ensures -1 <= r < |stores|
    ensures r >= 0 ==> stores[r].id == id
    ensures r == -1 <==> forall k :: 0 <= k < |stores| ==> stores[k].id != id
  {
    if |stores| == 0 then -1
    else if stores[|stores| - 1].id == id then |stores| - 1
    else FindStore(stores[..|stores| - 1], id)
  }

  /** Under the invariant, the store object a segment holds is the store listed at that segment. */
  lemma SegmentStoreIsListedStore(s: State, location: int)
    requires Valid(s) && 0 <= location < |s.segments|
    ensures s.segments[location].store.Some? <==> location in s.storeSegments
    ensures s.segments[location].store.Some? ==>
      FindStore(s.stores, s.segments[location].store.value) == IndexOf(s.storeSegments, location)
  {
    if s.segments[location].store.Some? {
      var k := IndexOf(s.storeSegments, location);
      assert s.segments[s.storeSegments[k]].store == Some(s.stores[k].id);
      var f := FindStore(s.stores, s.segments[location].store.value);
      assert f != -1;
    }
    if location in s.storeSegments {
      var k := IndexOf(s.storeSegments, location);
      assert s.segments[s.storeSegments[k]].store == Some(s.stores[k].id);
    }
  }

  /** Under the invariant, a location no store or robot is listed at is an empty segment. */
  lemma UnlistedLocationIsEmpty(s: State, location: int)
    requires Valid(s) && 0 <= location < |s.segments|
    requires location !in s.storeSegments && location !in s.robotSegments
    ensures s.segments[location].store.None? && s.segments[location].robot.None?
    ensures !s.segments[location].occupied
  {
    assert Consistent(s.segments[location]);
  }
}
