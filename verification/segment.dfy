/** One cell of the road: a fixed index and pixel position, and two slots
    (store, robot) of which at most one is filled. The slots hold the identity
    of the store or robot object placed there. */
module Segments {
  import opened Util

  datatype Segment = Segment(
    index: int,
    position: Point,
    store: Option<nat>,
    robot: Option<nat>,
    occupied: bool)

  /** The segment invariant: the flag says whether a slot is filled, and never both are. */
  predicate Consistent(s: Segment) {
    && s.occupied == (s.store.Some? || s.robot.Some?)
    && !(s.store.Some? && s.robot.Some?)
  }

  predicate HasStore(s: Segment) { s.store.Some? }
  predicate HasRobot(s: Segment) { s.robot.Some? }
  predicate IsOccupied(s: Segment) { s.occupied }
  predicate IsEmpty(s: Segment) { !s.occupied }

  function NewSegment(index: int, position: Point): (r: Segment)
    ensures r.index == index && r.position == position
    ensures r.store == None && r.robot == None
    ensures Consistent(r) && IsEmpty(r)
  {
    Segment(index, position, None, None, false)
  }

  /** The result of a placement: the new segment and whether the occupant was accepted. */
  datatype Placed = Placed(segment: Segment, ok: bool)

  /** The result of a removal: the new segment and the previous occupant of that slot. */
  datatype Removed = Removed(segment: Segment, previous: Option<nat>)

  /** `updateOccupiedStatus`: recomputes the flag from the two slots. */
  function UpdateOccupied(s: Segment): (r: Segment)
    ensures Consistent(s) ==> r == s
    ensures r.occupied <==> r.store.Some? || r.robot.Some?
    ensures r.index == s.index && r.position == s.position && r.store == s.store && r.robot == s.robot
  {
    s.(occupied := s.store.Some? || s.robot.Some?)
  }

  /** `placeStore`: refused without change when the segment is occupied. */
  function PlaceStore(s: Segment, id: nat): (r: Placed)
    ensures r.ok <==> !IsOccupied(s)
    ensures !r.ok ==> r.segment == s
    ensures r.ok ==> r.segment.store == Some(id) && r.segment.robot == s.robot && IsOccupied(r.segment)
    ensures r.segment.index == s.index && r.segment.position == s.position
    ensures Consistent(s) ==> Consistent(r.segment)
  {
    if s.occupied then Placed(s, false)
    else Placed(s.(store := Some(id), occupied := true), true)
  }

  /** `placeRobot`: refused without change when the segment is occupied. */
  function PlaceRobot(s: Segment, id: nat): (r: Placed)
    ensures r.ok <==> !IsOccupied(s)
    ensures !r.ok ==> r.segment == s
    ensures r.ok ==> r.segment.robot == Some(id) && r.segment.store == s.store && IsOccupied(r.segment)
    ensures r.segment.index == s.index && r.segment.position == s.position
    ensures Consistent(s) ==> Consistent(r.segment)
  {
    if s.occupied then Placed(s, false)
    else Placed(s.(robot := Some(id), occupied := true), true)
  }

  /** `removeStore`: hands back the previous store (possibly none) and clears only that slot. */
  function RemoveStore(s: Segment): (r: Removed)
    ensures r.previous == s.store
    ensures r.segment.store == None && r.segment.robot == s.robot
    ensures r.segment.index == s.index && r.segment.position == s.position
    ensures Consistent(r.segment)
  {
    Removed(UpdateOccupied(s.(store := None)), s.store)
  }

  /** `removeRobot`: hands back the previous robot (possibly none) and clears only that slot. */
  function RemoveRobot(s: Segment): (r: Removed)
    ensures r.previous == s.robot
    ensures r.segment.robot == None && r.segment.store == s.store
    ensures r.segment.index == s.index && r.segment.position == s.position
    ensures Consistent(r.segment)
  {
    Removed(UpdateOccupied(s.(robot := None)), s.robot)
  }

  /** Under the invariant, "empty" means that neither slot is filled. */
  lemma EmptyMeansNoOccupant(s: Segment)
    requires Consistent(s)
    ensures IsEmpty(s) <==> !IsOccupied(s)
    ensures IsEmpty(s) <==> !HasStore(s) && !HasRobot(s)
  {
  }

  /** The four mutators of a segment, for reasoning about its whole life. */
  datatype SegmentOp = PlaceStoreOp(sid: nat) | PlaceRobotOp(rid: nat) | RemoveStoreOp | RemoveRobotOp

  function Apply(s: Segment, op: SegmentOp): Segment {
    match op
    case PlaceStoreOp(id) => PlaceStore(s, id).segment
    case PlaceRobotOp(id) => PlaceRobot(s, id).segment
    case RemoveStoreOp => RemoveStore(s).segment
    case RemoveRobotOp => RemoveRobot(s).segment
  }

  function ApplyAll(s: Segment, ops: seq<SegmentOp>): Segment
    decreases |ops|
  {
    if |ops| == 0 then s else ApplyAll(Apply(s, ops[0]), ops[1..])
  }

  /** From construction on, whatever is done to it, a segment keeps its index and
      position, and never holds a store and a robot together. */
  lemma {:induction false} SegmentLifetime(index: int, position: Point, ops: seq<SegmentOp>)
    ensures ApplyAll(NewSegment(index, position), ops).index == index
    ensures ApplyAll(NewSegment(index, position), ops).position == position
    ensures Consistent(ApplyAll(NewSegment(index, position), ops))
  {
    SegmentOpsPreserve(NewSegment(index, position), ops);
  }

  lemma {:induction false} SegmentOpsPreserve(s: Segment, ops: seq<SegmentOp>)
    requires Consistent(s)
    ensures ApplyAll(s, ops).index == s.index && ApplyAll(s, ops).position == s.position
    ensures Consistent(ApplyAll(s, ops))
    decreases |ops|
  {
    if |ops| > 0 {
      SegmentOpsPreserve(Apply(s, ops[0]), ops[1..]);
    }
  }
}
