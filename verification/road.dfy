/** The road layout: `length` cells laid out as a square spiral on a grid,
    starting at grid cell (0, 0) and turning right, down, left, up with runs
    of 1, 1, 2, 2, 3, 3, ... cells. Each cell's pixel position is derived
    from its grid cell. The rectangles drawn for cells and connecting lines
    are presentation only and are not modelled. */
module Roads {
  import opened Util

  /** Distance in pixels between neighbouring cells. */
  const CellGap: int := 65
  /** Pixel margin of grid cell (0, 0). */
  const Offset: int := 270

  datatype Dir = Right | Down | Left | Up

  /** A grid cell (not a pixel position). */
  datatype Cell = Cell(x: int, y: int)

  function Step(c: Cell, d: Dir): Cell {
    match d
    case Right => Cell(c.x + 1, c.y)
    case Down => Cell(c.x, c.y + 1)
    case Left => Cell(c.x - 1, c.y)
    case Up => Cell(c.x, c.y - 1)
  }

  /** Run `j` of the spiral (0-based) has `j / 2 + 1` steps: 1, 1, 2, 2, 3, 3, ... */
  function RunLen(j: nat): nat {
    j / 2 + 1
  }

  /** Runs cycle through right, down, left, up. */
  function RunDir(j: nat): Dir {
    match j % 4
    case 0 => Right
    case 1 => Down
    case 2 => Left
    case _ => Up
  }

  /** The number of steps taken before run `j` starts. */
  function RunStart(j: nat): nat {
    if j == 0 then 0 else RunStart(j - 1) + RunLen(j - 1)
  }

  /** The direction of step `k` when counting from the start of run `j`. */
  function StepDirFrom(k: nat, j: nat): Dir
    decreases k
  {
    if k < RunLen(j) then RunDir(j) else StepDirFrom(k - RunLen(j), j + 1)
  }

  /** The direction of the `k`-th step of the spiral (0-based). */
  function StepDir(k: nat): Dir {
    StepDirFrom(k, 0)
  }

  /** Cell `k + 1` of `q` is one step from cell `k` in direction `d`. */
  predicate StepsIn(q: seq<Cell>, k: nat, d: Dir)
    requires k + 1 < |q|
  {
    q[k + 1] == Step(q[k], d)
  }

  /** The reference layout: the first `n` cells of the spiral walk. */
  function Spiral(n: nat): (cells: seq<Cell>)
    requires n >= 1
    ensures |cells| == n
    ensures cells[0] == Cell(0, 0)
    ensures forall k :: 0 <= k < n - 1 ==> StepsIn(cells, k, StepDir(k))
  {
    if n == 1 then [Cell(0, 0)]
    else
      var prev := Spiral(n - 1);
      prev + [Step(prev[n - 2], StepDir(n - 2))]
  }

  /** `q` starts at (0, 0) and each of its steps goes in the spiral's direction. */
  predicate IsSpiral(q: seq<Cell>) {
    |q| >= 1 && q[0] == Cell(0, 0) && forall k :: 0 <= k < |q| - 1 ==> StepsIn(q, k, StepDir(k))
  }

  /** Every step inside run `j` goes in that run's direction. */
  lemma StepDirInRun(j: nat, k: nat)
    requires RunStart(j) <= k < RunStart(j) + RunLen(j)
    ensures StepDir(k) == RunDir(j)
  {
    StepDirShift(k, 0, j);
    var off := k - RunStart(j);
    assert StepDir(k) == StepDirFrom(off, j);
    assert off < RunLen(j);
  }

  lemma {:induction false} StepDirShift(k: nat, i: nat, j: nat)
    requires i <= j && RunStart(j) <= k + RunStart(i)
    ensures StepDirFrom(k, i) == StepDirFrom(k + RunStart(i) - RunStart(j), j)
    decreases j - i
  {
    if i < j {
      RunStartMonotone(i + 1, j);
      assert k >= RunLen(i);
      StepDirShift(k - RunLen(i), i + 1, j);
    }
  }

  lemma {:induction false} RunStartMonotone(i: nat, j: nat)
    requires i <= j
    ensures RunStart(i) <= RunStart(j)
    decreases j - i
  {
    if i < j {
      RunStartMonotone(i, j - 1);
    }
  }

  /** A walk that starts at (0, 0) and follows the spiral's step directions is the spiral. */
  lemma {:induction false} SpiralUnique(q: seq<Cell>)
    requires |q| >= 1 && q[0] == Cell(0, 0)
    requires forall k :: 0 <= k < |q| - 1 ==> StepsIn(q, k, StepDir(k))
    ensures q == Spiral(|q|)
  {
    if |q| > 1 {
      var p := q[..|q| - 1];
      SpiralUnique(p);
      assert q == p + [Step(p[|q| - 2], StepDir(|q| - 2))];
    }
  }

  /** Consecutive cells differ by exactly 1 in exactly one coordinate. */
  lemma SpiralIsConnected(n: nat, k: nat)
    requires n >= 1 && k < n - 1
    ensures var a := Spiral(n)[k]; var b := Spiral(n)[k + 1];
      (a.x == b.x && Abs(a.y - b.y) == 1) || (a.y == b.y && Abs(a.x - b.x) == 1)
  {
    assert StepsIn(Spiral(n), k, StepDir(k));
  }

  /** One of the four inner `for` loops: up to `pasos` steps in direction `d`,
      stopping once `n` cells exist. */
  method WalkRun(cells: seq<Cell>, d: Dir, pasos: nat, n: nat) returns (r: seq<Cell>)
    requires 1 <= |cells| <= n
    ensures |r| == Min(|cells| + pasos, n)
    ensures r[..|cells|] == cells
    ensures forall k :: |cells| - 1 <= k < |r| - 1 ==> StepsIn(r, k, d)
  {
    r := cells;
    var i := 0;
    while i < pasos && |r| < n
      invariant 0 <= i <= pasos
      invariant |r| == |cells| + i <= n
      invariant r[..|cells|] == cells
      invariant forall k :: |cells| - 1 <= k < |r| - 1 ==> StepsIn(r, k, d)
    {
      ghost var prev := r;
      r := r + [Step(r[|r| - 1], d)];
      assert forall k :: |cells| - 1 <= k < |r| - 1 ==> StepsIn(r, k, d) by {
        forall k | |cells| - 1 <= k < |r| - 1
          ensures StepsIn(r, k, d)
        {
          if k < |prev| - 1 {
            assert StepsIn(prev, k, d);
          }
        }
      }
      i := i + 1;
    }
  }

  /** A completed `WalkRun` of run `j` extends a spiral prefix to a longer spiral prefix. */
  lemma RunExtendsSpiral(cells: seq<Cell>, r: seq<Cell>, j: nat, n: nat)
    requires 1 <= |cells| <= n && IsSpiral(cells)
    requires |cells| < n ==> |cells| - 1 == RunStart(j)
    requires |r| == Min(|cells| + RunLen(j), n)
    requires r[..|cells|] == cells
    requires forall k :: |cells| - 1 <= k < |r| - 1 ==> StepsIn(r, k, RunDir(j))
    ensures IsSpiral(r)
    ensures |r| < n ==> |r| - 1 == RunStart(j + 1)
  {
    if |cells| == n {
      assert r == cells;
    } else {
      forall k | 0 <= k < |r| - 1
        ensures StepsIn(r, k, StepDir(k))
      {
        if k < |cells| - 1 {
          assert r[k] == cells[k] && r[k + 1] == cells[k + 1];
          assert StepsIn(cells, k, StepDir(k));
        } else {
          StepDirInRun(j, k);
          assert StepsIn(r, k, RunDir(j));
        }
      }
      assert r[0] == cells[0];
    }
  }

  /** Round `t` of the outer loop walks runs `4t .. 4t+3`: right and down `2t+1`
      steps, then left and up `2t+2` steps. */
  lemma RoundShape(t: nat)
    ensures RunLen(4 * t) == 2 * t + 1 && RunDir(4 * t) == Right
    ensures RunLen(4 * t + 1) == 2 * t + 1 && RunDir(4 * t + 1) == Down
    ensures RunLen(4 * t + 2) == 2 * t + 2 && RunDir(4 * t + 2) == Left
    ensures RunLen(4 * t + 3) == 2 * t + 2 && RunDir(4 * t + 3) == Up
  {
    Halve(2 * t, 0);
    Halve(2 * t, 1);
    Halve(2 * t + 1, 0);
    Halve(2 * t + 1, 1);
    Quarter(t, 0);
    Quarter(t, 1);
    Quarter(t, 2);
    Quarter(t, 3);
  }

  lemma Halve(q: nat, r: nat)
    requires r < 2
    ensures (2 * q + r) / 2 == q
  {
  }

  lemma Quarter(q: nat, r: nat)
    requires r < 4
    ensures (4 * q + r) % 4 == r
  {
  }

  /** Run `j` of the spiral walked by one inner loop: the path stays a spiral prefix. */
  method WalkSpiralRun(cells: seq<Cell>, d: Dir, pasos: nat, ghost j: nat, length: nat) returns (r: seq<Cell>)
    requires 1 <= |cells| <= length && IsSpiral(cells)
    requires pasos == RunLen(j) && d == RunDir(j)
    requires |cells| < length ==> |cells| - 1 == RunStart(j)
    ensures |cells| <= |r| <= length && IsSpiral(r)
    ensures |cells| < length ==> |cells| < |r|
    ensures |r| < length ==> |r| - 1 == RunStart(j + 1)
  {
    r := WalkRun(cells, d, pasos, length);
    RunExtendsSpiral(cells, r, j, length);
  }

  /** Two consecutive runs `j` and `j + 1` of the same length: right then down, or
      left then up. */
  method WalkPair(cells: seq<Cell>, d1: Dir, d2: Dir, pasos: nat, ghost j: nat, length: nat) returns (r: seq<Cell>)
    requires 1 <= |cells| < length && IsSpiral(cells)
    requires pasos == RunLen(j) && pasos == RunLen(j + 1) && d1 == RunDir(j) && d2 == RunDir(j + 1)
    requires |cells| - 1 == RunStart(j)
    ensures |cells| < |r| <= length && IsSpiral(r)
    ensures |r| < length ==> |r| - 1 == RunStart(j + 2)
  {
    var c := WalkSpiralRun(cells, d1, pasos, j, length);
    r := WalkSpiralRun(c, d2, pasos, j + 1, length);
  }

  /** One round of the outer `while` loop: runs `4t .. 4t+3`, with `pasos`
      raised after the down run and after the up run. */
  method WalkRound(cells: seq<Cell>, pasos: nat, ghost t: nat, length: nat) returns (r: seq<Cell>, pasos': nat)
    requires 1 <= |cells| < length && IsSpiral(cells)
    requires pasos == 2 * t + 1 && |cells| - 1 == RunStart(4 * t)
    ensures |cells| < |r| <= length && IsSpiral(r)
    ensures pasos' == pasos + 2
    ensures |r| < length ==> |r| - 1 == RunStart(4 * (t + 1))
  {
    RoundShape(t);
    var c := WalkPair(cells, Right, Down, pasos, 4 * t, length);
    pasos' := pasos + 1;
    if |c| < length {
      r := WalkPair(c, Left, Up, pasos', 4 * t + 2, length);
    } else {
      r := c;
    }
    pasos' := pasos' + 1;
    assert 4 * (t + 1) == 4 * t + 2 + 2;
  }

  /** `createRoadPath`: the Java loop structure, which builds exactly the spiral. */
  method CreateRoadPath(length: nat) returns (cells: seq<Cell>)
    requires length >= 1
    ensures cells == Spiral(length)
  {
    cells := [Cell(0, 0)];
    var pasos: nat := 1;
    ghost var t: nat := 0;
    while |cells| < length
      invariant 1 <= |cells| <= length
      invariant IsSpiral(cells)
      invariant pasos == 2 * t + 1
      invariant |cells| < length ==> |cells| - 1 == RunStart(4 * t)
      decreases length - |cells|
    {
      cells, pasos := WalkRound(cells, pasos, t, length);
      t := t + 1;
    }
    SpiralUnique(cells);
  }

  /** `createSegmentAt`: the pixel position of a grid cell. */
  function Pixel(c: Cell): Point {
    Point(c.x * CellGap + Offset, c.y * CellGap + Offset)
  }

  /** The road: its length and the pixel position of each of its cells. */
  datatype Road = Road(length: int, positions: seq<Point>)

  /** `new Road(length)`: refused (IllegalArgumentException) unless `length > 0`. */
  function NewRoad(length: int): (r: Option<Road>)
    ensures r.None? <==> length <= 0
    ensures r.Some? ==> SegmentCount(r.value) == length
    ensures r.Some? ==> forall i :: 0 <= i < length ==>
      SegmentPosition(r.value, i) == Some(Pixel(Spiral(length)[i]))
  {
    if length <= 0 then None
    else
      var cells := Spiral(length);
      Some(Road(length, seq(length, i requires 0 <= i < length => Pixel(cells[i]))))
  }

  /** `getSegmentCount`. */
  function SegmentCount(road: Road): nat {
    |road.positions|
  }

  /** `getSegmentPosition`: no position (null) outside `[0, getSegmentCount())`. */
  function SegmentPosition(road: Road, i: int): (r: Option<Point>)
    ensures r.Some? <==> 0 <= i < SegmentCount(road)
    ensures r.Some? ==> r.value == road.positions[i]
  {
    if 0 <= i < |road.positions| then Some(road.positions[i]) else None
  }
}
