/** A robot: a collector born on a home segment, with an integer body position
    and an uncapped count of the coins collected. Its shapes and the colour
    counter are presentation only and are not modelled. */
module Robots {
  import opened Util

  /** `id` stands for the Java object's identity (segments refer to robots by it). */
  datatype Robot = Robot(id: nat, x: int, y: int, initialSegment: int, dailyCoins: int)

  /** `new Robot(x, y, initialSegment)`: no coins yet. */
  function NewRobot(id: nat, x: int, y: int, initialSegment: int): (r: Robot)
    ensures r.id == id && r.x == x && r.y == y
    ensures r.initialSegment == initialSegment
    ensures r.dailyCoins == 0
  {
    Robot(id, x, y, initialSegment, 0)
  }

  function MoveHorizontal(r: Robot, distance: int): Robot {
    r.(x := r.x + distance)
  }

  function MoveVertical(r: Robot, distance: int): Robot {
    r.(y := r.y + distance)
  }

  /** `moveTo`: moves by the differences to the target, which lands exactly on it. */
  function MoveTo(r: Robot, newX: int, newY: int): (m: Robot)
    ensures m.x == newX && m.y == newY
    ensures m.id == r.id && m.initialSegment == r.initialSegment && m.dailyCoins == r.dailyCoins
  {
    MoveVertical(MoveHorizontal(r, newX - r.x), newY - r.y)
  }

  function ResetDay(r: Robot): (m: Robot)
    ensures m.dailyCoins == 0
    ensures m.id == r.id && m.x == r.x && m.y == r.y && m.initialSegment == r.initialSegment
  {
    r.(dailyCoins := 0)
  }

  /** `addCoins`: no cap (the former 200-coin limit was removed). */
  function AddCoins(r: Robot, amount: int): (m: Robot)
    ensures m.dailyCoins - r.dailyCoins == amount
    ensures m.id == r.id && m.x == r.x && m.y == r.y && m.initialSegment == r.initialSegment
  {
    r.(dailyCoins := r.dailyCoins + amount)
  }

  /** A robot can always collect more. */
  function CanCollectMore(r: Robot): bool {
    true
  }

  /** The capacity left is `Integer.MAX_VALUE`, whatever has been collected. */
  function RemainingCapacity(r: Robot): int {
    MaxInt
  }

  /** The capacity never limits what is taken from a store holding a Java `int` balance. */
  lemma CapacityNeverBinds(r: Robot, available: int)
    requires available <= MaxInt
    ensures CanCollectMore(r)
    ensures Min(available, RemainingCapacity(r)) == available
  {
  }

  /** The mutators of a robot, for reasoning about its whole life. */
  datatype RobotOp = Add(amount: int) | Reset | MoveToOp(nx: int, ny: int)

  function Apply(r: Robot, op: RobotOp): Robot {
    match op
    case Add(a) => AddCoins(r, a)
    case Reset => ResetDay(r)
    case MoveToOp(nx, ny) => MoveTo(r, nx, ny)
  }

  function ApplyAll(r: Robot, ops: seq<RobotOp>): Robot
    decreases |ops|
  {
    if |ops| == 0 then r else ApplyAll(Apply(r, ops[0]), ops[1..])
  }

  /** The coins added since the last reset (all of them if there was none). */
  function AddedSinceReset(start: int, ops: seq<RobotOp>): int
    decreases |ops|
  {
    if |ops| == 0 then start
    else
      match ops[0]
      case Add(a) => AddedSinceReset(start + a, ops[1..])
      case Reset => AddedSinceReset(0, ops[1..])
      case MoveToOp(_, _) => AddedSinceReset(start, ops[1..])
  }

  /** Over any sequence of operations the home segment and identity never change,
      and `dailyCoins` is the plain sum of the amounts added since the last reset. */
  lemma {:induction false} RobotLifetime(r: Robot, ops: seq<RobotOp>)
    ensures ApplyAll(r, ops).initialSegment == r.initialSegment
    ensures ApplyAll(r, ops).id == r.id
    ensures ApplyAll(r, ops).dailyCoins == AddedSinceReset(r.dailyCoins, ops)
    decreases |ops|
  {
    if |ops| > 0 {
      RobotLifetime(Apply(r, ops[0]), ops[1..]);
    }
  }
}
