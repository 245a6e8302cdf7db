# SilkRoad in Dafny

A model of the SilkRoad simulation: a road of `length` cells laid out as a
square spiral. Stores (coin reservoirs) and robots (coin collectors) are placed
on the cells. Robots move along the road, collect the coins of the stores they
reach, and pay one unit per metre walked. The day cycle returns the robots home
and restocks the stores. Five queries report the state: `profit`, `stores`,
`robots`, `emptiedStores` and `profitPerMove`.

The model is functional. A `SilkState.State` value holds everything the Java
object keeps:

- the segments;
- the parallel store and robot lists;
- the per-robot move histories;
- the movement costs;
- the integer part of the progress bar;
- a counter that stands for object identity.

Every public method of `SilkRoad` is a pure transition. A method that prints a
console message and returns early leaves the state unchanged and names the
reason: an `Operations.Outcome` for the single-object operations, an
`AutoMove.Report` for the three early returns of `moveRobots`. The length
constructor, which throws for `length <= 0`, yields `None` (`Operations.Init`).

`SilkState.Valid` is the class invariant. It is proved to hold after both
constructors and to be preserved by every operation.

The modules follow the Java classes:

- `Stores`, `Robots`, `Segments`, `ProfitBars` and `Roads` model the five
  entity classes.
- `SilkState` holds the state and the invariant.
- `Operations` holds the mutators and constructors.
- `Reports` holds the queries.
- `Matching` and `AutoMove` model `moveRobots`.
- `Invariants` and `Properties` hold the lemmas.
- `Util` and `Sorting` are shared helpers. `Sorting` is a stable sort standing
  in for `List.sort` and `Arrays.sort`.

Occupancy is kept in two layers, as in the Java code:

- Placement checks the lists.
- Removal checks the segment slots.
- A move records the robot's new location in the list even when the
  destination segment refuses the robot.

The invariant therefore does not claim that listed locations are disjoint. It
claims only what the code keeps:

- at most one occupant per segment;
- exact agreement between listed stores and store slots;
- robot slots only where a robot is listed.

Where the code and its design notes disagree, the model follows the code:

- A move to a negative cell is not rejected by a guard. `segments.get` throws
  before anything changes. The model reports `IndexOutOfBounds` and leaves the
  state unchanged.
- A store may be placed with a zero or negative balance through `placeStore`.
  Only the day-plan constructor skips non-positive values.
- `setCoins` counts an emptying whenever a non-zero balance (negative ones
  included) becomes 0.
- A robot that moves onto an occupied cell stays out of that segment's slot but
  is listed there.

## Model

| member | source | states |
|---|---|---|
| Util.IndexOf | SilkRoad.java:194 | `ArrayList.indexOf`: -1 exactly when the value is absent, otherwise the first position holding it |
| Util.RemoveAt | SilkRoad.java:195-196 | `ArrayList.remove(int)`: one shorter, elements before `i` kept, elements after shifted down by one |
| Util.SumUpdate | SilkRoad.java:126-132 | replacing one term of the coin total changes the total by the difference |
| Util.SumRemoveAt | SilkRoad.java:117-123 | dropping one store drops its term from the total |
| Sorting.Insert | SilkRoad.java:547 | inserting a row keeps the rows (as a multiset) and keeps them ordered by location |
| Sorting.SortByKey | SilkRoad.java:547 | the sort returns a permutation of its rows, ordered by column 0 |
| Sorting.SortIsStable | SilkRoad.java:602 | the sort is stable: rows with equal locations keep their relative order |
| Sorting.InsertWithKey | SilkRoad.java:602 | insertion places a row after every row with the same location |
| Sorting.WithKeyAppend | SilkRoad.java:602 | the rows with one location, from two concatenated lists, are those of each list in turn |
| Stores.NewStore | Store.java:28-31 | a new store starts with its balance equal to its initial coins and no emptyings |
| Stores.SetCoins | Store.java:120-129 | the balance becomes the value given; the counter rises by one exactly when a non-zero balance becomes 0, and never otherwise |
| Stores.Restock | Store.java:141-143 | the balance returns to the initial coins and the emptied counter is kept |
| Stores.StoreLifetime | Store.java:120-149 | over any sequence of `setCoins`/`restock` calls, the initial coins never change and the counter equals the number of non-zero-to-zero transitions |
| Stores.ZeroOnEmptyDoesNotCount | Store.java:121-129 | setting 0 on an empty store does not count as emptying it |
| Robots.NewRobot | Robot.java:25-29 | a new robot keeps its position and home segment and has collected nothing |
| Robots.MoveTo | Robot.java:101-122 | moving by the two differences lands exactly on the target, coins and home untouched |
| Robots.ResetDay | Robot.java:125-127 | only the coins collected drop to 0 |
| Robots.AddCoins | Robot.java:133-136 | the coins collected rise by exactly the amount, without a cap |
| Robots.CapacityNeverBinds | Robot.java:138-146 | `CanCollectMore` is always true and `RemainingCapacity` is `Integer.MAX_VALUE`, so `min(available, remaining capacity)` is the whole available balance |
| Robots.RobotLifetime | Robot.java:117-136 | over any sequence of moves, adds and resets, the home segment never changes and the coins are the sum added since the last reset |
| Segments.NewSegment | Segment.java:10-16 | a new segment keeps its index and position and is empty |
| Segments.UpdateOccupied | Segment.java:78-80 | the flag is set exactly when a slot is filled, and a consistent segment is unchanged |
| Segments.PlaceStore | Segment.java:22-29 | accepted exactly when the segment is unoccupied, otherwise nothing changes; on acceptance the store slot holds the store |
| Segments.PlaceRobot | Segment.java:50-57 | accepted exactly when the segment is unoccupied, otherwise nothing changes; on acceptance the robot slot holds the robot |
| Segments.RemoveStore | Segment.java:31-36 | returns the previous store (possibly none), clears only the store slot, and leaves the segment consistent |
| Segments.RemoveRobot | Segment.java:59-64 | returns the previous robot (possibly none) and clears only the robot slot |
| Segments.EmptyMeansNoOccupant | Segment.java:82-88 | `isEmpty` is the negation of `isOccupied`, and under the invariant it means neither slot is filled |
| Segments.SegmentLifetime | Segment.java:10-80 | from construction, whatever is placed or removed, a segment keeps its index and position and never holds a store and a robot together |
| Segments.SegmentOpsPreserve | Segment.java:22-80 | every sequence of placements and removals preserves the one-occupant invariant |
| ProfitBars.NewBar | ProfitBar.java:21-27 | a new bar shows 0 of 0 and is not complete |
| ProfitBars.UpdateMaxProfit | ProfitBar.java:56-59 | the ceiling is stored as given and the shown value is kept |
| ProfitBars.UpdateCurrentProfit | ProfitBar.java:65-68 | the shown value is the profit, or 0 when the profit is negative |
| ProfitBars.Reset | ProfitBar.java:120-124 | the bar returns to its initial state |
| ProfitBars.CompleteExactlyAtCeiling | ProfitBar.java:139-141 | `IsComplete` (`isComplete`) is never true for a bar with a non-positive ceiling; with a positive ceiling it is true exactly when the value reaches it |
| ProfitBars.CurrentNeverNegative | ProfitBar.java:65-124 | from construction, no sequence of updates and resets makes the shown value negative |
| Roads.Spiral | Road.java:27-89 | the reference layout: `n` cells from (0, 0), each one step from the previous in the spiral's direction |
| Roads.StepDirInRun | Road.java:44-88 | every step of run `j` goes in that run's direction (right, down, left, up in turn) |
| Roads.RoundShape | Road.java:44-88 | round `t` of the outer loop walks right and down `2t+1` steps, then left and up `2t+2` steps |
| Roads.SpiralUnique | Road.java:27-89 | a walk from (0, 0) that follows the spiral's directions is the spiral |
| Roads.SpiralIsConnected | Road.java:46-85 | consecutive cells differ by exactly 1 in exactly one coordinate |
| Roads.WalkRun | Road.java:46-53 | one inner loop adds `min(pasos, cells still needed)` cells, each one step further in its direction |
| Roads.RunExtendsSpiral | Road.java:44-88 | a completed run extends a spiral prefix to a longer spiral prefix |
| Roads.WalkSpiralRun | Road.java:46-85 | one inner loop extends a spiral path by run `j` and, unless the length is reached, ends where run `j + 1` starts |
| Roads.WalkPair | Road.java:46-64 | two inner loops of the same `pasos` (right then down, or left then up) extend the spiral by two runs |
| Roads.WalkRound | Road.java:44-88 | one round of the outer loop keeps the path a spiral and raises `pasos` by two |
| Roads.CreateRoadPath | Road.java:27-89 | the Java loop structure produces exactly the first `length` cells of the spiral |
| Roads.NewRoad | Road.java:16-25 | refused exactly when `length <= 0`; otherwise `length` segments, each at `Pixel` of its spiral cell (`createSegmentAt`: grid coordinate times `CELL_GAP` plus `OFFSET`, Road.java:96-97) |
| Roads.SegmentPosition | Road.java:162-172 | a position (not null) exactly for indices in `[0, SegmentCount)`, where `SegmentCount` (`getSegmentCount`) is the number of stored positions |
| SilkState.RefreshBar | SilkRoad.java:171-172 | after the two updates, the ceiling is `TotalInitialCoins` (the stores' initial coins summed, as `getTotalInitialCoinsInStores` does at SilkRoad.java:117-123) and the shown value is `TotalCoinsCollected` (the robots' coins summed, as `getTotalCoinsCollected` does at SilkRoad.java:126-132), or 0 |
| SilkState.FindStore | SilkRoad.java:310 | the store object a segment holds is found in the list by identity, or is absent |
| SilkState.SegmentStoreIsListedStore | SilkRoad.java:309-310 | under the invariant a segment holds a store exactly when one is listed there, and it is that listed store |
| SilkState.UnlistedLocationIsEmpty | SilkRoad.java:145-155 | under the invariant, a location no store or robot is listed at is an empty segment |
| Operations.Init | SilkRoad.java:28-50 | refused exactly when `length <= 0`; otherwise one empty segment per road cell at its position, empty lists, zero costs, a fresh bar |
| Operations.PlaceStore | SilkRoad.java:138-176 | checks range, listed stores, then listed robots (each failure leaves the state unchanged); succeeds exactly when all three pass, appends the new store with its location, fills the segment, and refreshes the bar |
| Operations.RemoveStore | SilkRoad.java:178-205 | checks range, then the segment's store slot; on success clears the slot, removes the first listed store at the location, and refreshes the bar |
| Operations.PlaceRobot | SilkRoad.java:207-244 | checks range, listed robots, then listed stores; on success appends a robot homed at the location with no coins and empty histories, fills the segment, and leaves the bar alone |
| Operations.RemoveRobot | SilkRoad.java:246-273 | checks range, then the segment's robot slot; on success clears the slot and removes the first listed robot at the location with its histories |
| Operations.StoreAt | SilkRoad.java:309-310 | the list position of the store the segment holds: a position it yields names a listed store with the held identity; no store is yielded for an empty store slot, or when no listed store has the held identity |
| Operations.Relocate | SilkRoad.java:291-303 | the robot is listed at the target and its body moved to the target's position plus the object offset; its coins and home are kept; the origin's robot slot is cleared; a free target takes the robot and an occupied one is left as it was; every other segment, every store slot, every other robot and the bar are untouched |
| Operations.Collect | SilkRoad.java:309-326 | at a store with a positive balance the robot takes `min(coins, MAX_VALUE)`, the store keeps the rest and the bar is refreshed; otherwise nothing changes |
| Operations.Record | SilkRoad.java:331-336 | the move's metres and coins are appended to the robot's histories and the metres are added to the costs |
| Operations.MoveRobot | SilkRoad.java:275-338 | no robot listed, beyond the road's end, or before its start: unchanged with that outcome. Otherwise the move takes place: the metres are charged and the robot and store lists keep their lengths and store locations |
| Operations.MoveRobotMoves | SilkRoad.java:291-336 | the first robot listed at `location` is listed at the target, its histories grow by the distance and the coins collected, its coins grow by the coins collected, and every other robot is unchanged |
| Operations.MoveRobotCollects | SilkRoad.java:309-326 | at a listed store with a positive balance the robot takes the balance, capped at `Integer.MAX_VALUE`, the store keeps the rest and the bar is refreshed; anywhere else nothing is collected and the stores and bar are unchanged |
| Operations.ReturnFrom | SilkRoad.java:450-467 | from robot `i` on, every robot is listed at its home; earlier robots, stores and coins are untouched |
| Operations.ReturnRobots | SilkRoad.java:448-479 | every robot is listed at its home with its coins kept, every history is empty, and the costs are 0 |
| Operations.ResupplyStores | SilkRoad.java:481-491 | every store's balance is its initial coins, counters and locations are kept, robots are untouched, and the bar is refreshed |
| Operations.Reboot | SilkRoad.java:493-524 | every segment is emptied, every list is emptied, the costs are 0 and the bar is reset |
| Operations.MaxLocation | SilkRoad.java:53-59 | the largest `day[1]` among entries with at least two columns, and at least the start value; it is attained when it exceeds the start |
| Operations.ApplyDays | SilkRoad.java:88-111 | the entries applied in order keep the road and only add objects (every list is extended, nothing is charged); each new store and robot was asked for by an entry, at its location and with its balance; new robots hold no coins and no history; every location an entry asks to fill has a store or a robot listed at it at the end |
| Operations.ApplyDay | SilkRoad.java:89-110 | an entry shorter than four, off the road, or of a type other than 0 and 1 changes nothing; type 1 with a positive value is `placeStore`, with a value <= 0 nothing; type 0 is `placeRobot`; any object it adds is the one it asks for, and a store or a robot is listed at the location it asks to fill afterwards |
| Operations.DaysStep | SilkRoad.java:88-111 | the facts of the first entry and those of the remaining entries combine into those of the whole plan |
| Operations.FromDays | SilkRoad.java:52-113 | the road has `max(10, maxLocation + 5)` cells; nothing is charged; every store and robot was asked for by an entry (stores with the entry's positive balance, robots with no coins and no history); every location an entry asks to fill has a store or a robot listed at it |
| Reports.StoreRows | SilkRoad.java:553-555 | one `[location, coins]` row per listed store, in list order |
| Reports.RobotRows | SilkRoad.java:576-578 | one `[location, coins collected]` row per listed robot, in list order |
| Reports.Report | SilkRoad.java:547 | the report is a permutation of its rows, ordered by location, with equal locations in list order |
| Reports.StoresReport | SilkRoad.java:536-557 | `stores()` holds exactly one row per store, ordered stably by location |
| Reports.RobotsReport | SilkRoad.java:559-580 | `robots()` holds exactly one row per robot, ordered stably by location |
| Reports.EmptiedRows | SilkRoad.java:587-598 | a row `[location, timesEmptied]` for exactly the stores emptied at least once, and with distinct store locations no row twice, so one row per emptied store |
| Reports.EmptiedStoresReport | SilkRoad.java:583-605 | `emptiedStores()` lists exactly the stores emptied at least once, whatever their balance now, by location |
| Reports.MaxMoves | SilkRoad.java:686-692 | the largest number of moves recorded by any robot, attained by one of them |
| Reports.FallbackRow | SilkRoad.java:644-659 | with no move recorded, the row is the robot's location and a net value that, plus the distance between home and location, gives the robot's coins |
| Reports.MoveRow | SilkRoad.java:697-722 | the row is the location, then coins minus metres per recorded move, padded with 0 up to the widest history |
| Reports.ProfitRows | SilkRoad.java:612-722 | one row per robot: the fallback row of each robot when `HasMovements` finds no recorded move in any history, otherwise each robot's move row padded to the largest number of moves |
| Reports.Profit | SilkRoad.java:527-534 | the profit plus the metres charged is the sum of the robots' coins, so with non-negative charges it never exceeds the coins held |
| Reports.ProfitPerMove | SilkRoad.java:608-747 | empty without robots; otherwise one row per robot, stably ordered by location, two columns when nothing is recorded and `1 + max moves` otherwise |
| Matching.ScanStores | SilkRoad.java:393-404 | the inner loop keeps the nearest pair so far, the first one found on ties |
| Matching.ScanRobots | SilkRoad.java:389-405 | the outer loop keeps the nearest pair so far over all robots scanned |
| Matching.FindBest | SilkRoad.java:384-405 | no pair is found exactly when every distance is at least `MAX_VALUE`; otherwise the pair is the first of the nearest in scan order |
| Matching.FirstNearestIsUnique | SilkRoad.java:400 | the strict comparison selects a single pair |
| Matching.Withdraw | SilkRoad.java:431-432 | removing the assigned robot and store keeps every other candidate |
| Matching.WithdrawKeepsClose | SilkRoad.java:431-432 | when every distance is below `MAX_VALUE`, that stays so after an assignment |
| Matching.Greedy | SilkRoad.java:383-434 | there are no more assignments than robots, nor more than stores with coins |
| Matching.GreedyUsesAvailable | SilkRoad.java:383-434 | every assignment names a robot and a store that were candidates |
| Matching.AvailableInRange | SilkRoad.java:389-396 | a candidate names a row of each snapshot |
| Matching.GreedyStartsNearest | SilkRoad.java:383-434 | a non-empty plan starts with the first nearest pair and continues with the plan for the remaining candidates |
| Matching.GreedyUsesEachOnce | SilkRoad.java:383-434 | no robot and no store is assigned twice |
| Matching.UsesEachOnceCons | SilkRoad.java:431-432 | a first assignment whose robot and store are never used again extends an assignment that uses each once |
| Matching.GreedyIsComplete | SilkRoad.java:383-434 | when every distance is below `MAX_VALUE`, the loop assigns `min(robots, stores with coins)` pairs |
| AutoMove.Locations | SilkRoad.java:391-396 | the first column of the snapshot rows |
| AutoMove.AllRows | SilkRoad.java:366-368 | every robot row is available, each once |
| AutoMove.RowsWithCoins | SilkRoad.java:371-375 | exactly the store rows with a positive balance are available, in increasing order |
| AutoMove.Snapshot | SilkRoad.java:348-375 | the locations are column 0 of `robots()` and of `stores()`; every robot row is a candidate; the store candidates are exactly the rows of `stores()` with coins > 0; the candidate lists are well formed and duplicate-free |
| AutoMove.SnapshotHasCoins | SilkRoad.java:371-380 | the snapshot offers a store exactly when some listed store has a positive balance |
| AutoMove.GreedyInRange | SilkRoad.java:383-434 | every assignment of the greedy plan names a row of each snapshot |
| AutoMove.PlanUsesStoresWithCoins | SilkRoad.java:371-375 | every assignment `moveRobots` makes sends a robot to a row of `stores()` that shows coins > 0 |
| AutoMove.Assign | SilkRoad.java:408-424 | one assignment keeps the road, the robot count and the store locations; at distance 0 it changes nothing; otherwise it is `moveRobot(robotLocation, storeLocation - robotLocation)` |
| AutoMove.ApplyPlan | SilkRoad.java:383-434 | the assignments carried out in order keep the road, the robot count and the store locations, and never lower the costs |
| AutoMove.MoveRobots | SilkRoad.java:344-446 | no robots, no stores, or no store with coins: unchanged with that report. Assignments happen exactly when a robot exists and some store has coins; they are the greedy plan on the snapshot, carried out in order, and never lower the costs |
| Invariants.InitValid | SilkRoad.java:28-50 | a new road satisfies the class invariant |
| Invariants.SameStoreShape | SilkRoad.java:117-123 | changing one store's balance leaves the total of initial coins as it was |
| Invariants.PlaceStoreValid | SilkRoad.java:138-176 | `placeStore` preserves the class invariant |
| Invariants.RemoveStoreValid | SilkRoad.java:178-205 | `removeStore` preserves the class invariant |
| Invariants.ClearedStoreSlot | SilkRoad.java:191 | emptying a segment's store slot keeps every segment consistent and every robot slot listed |
| Invariants.DroppedStoreSlots | SilkRoad.java:191-197 | clearing the slot and the list entry together keeps stores and slots in agreement |
| Invariants.DroppedStoreIds | SilkRoad.java:195 | removing a store keeps identities distinct and fresh |
| Invariants.PlaceRobotValid | SilkRoad.java:207-244 | `placeRobot` preserves the class invariant |
| Invariants.RemoveRobotValid | SilkRoad.java:246-273 | `removeRobot` preserves the class invariant |
| Invariants.RelocateValid | SilkRoad.java:291-303 | moving a robot between segments preserves the class invariant |
| Invariants.CollectValid | SilkRoad.java:309-326 | collecting coins preserves the class invariant (the ceiling is unchanged) |
| Invariants.RecordValid | SilkRoad.java:331-336 | recording a move preserves the class invariant |
| Invariants.MoveRobotValid | SilkRoad.java:275-338 | `moveRobot` preserves the class invariant |
| Invariants.MovedRobotValid | SilkRoad.java:291-336 | a move that takes place preserves the class invariant |
| Invariants.StepsValid | SilkRoad.java:291-336 | relocating, collecting at the target and recording the move, one after the other, preserve the class invariant |
| Invariants.CollectRecordValid | SilkRoad.java:309-336 | collecting and then recording preserve the class invariant |
| Invariants.MovedFromSteps | SilkRoad.java:286-336 | a valid result of the three steps is a valid result of the move |
| Invariants.ReturnFromValid | SilkRoad.java:450-467 | each step of the return loop preserves the class invariant |
| Invariants.ReturnRobotsValid | SilkRoad.java:448-479 | `returnRobots` preserves the class invariant |
| Invariants.ResupplyStoresValid | SilkRoad.java:481-491 | `resupplyStores` preserves the class invariant |
| Invariants.RebootValid | SilkRoad.java:493-524 | `reboot` yields a state satisfying the class invariant |
| Invariants.ApplyDayValid | SilkRoad.java:88-111 | one day entry preserves the class invariant |
| Invariants.ApplyDaysValid | SilkRoad.java:88-111 | the day entries preserve the class invariant |
| Invariants.FromDaysValid | SilkRoad.java:52-113 | the day-plan constructor yields a state satisfying the class invariant |
| Invariants.AssignValid | SilkRoad.java:408-424 | one automatic assignment preserves the class invariant |
| Invariants.MovingAssignValid | SilkRoad.java:416-425 | an assignment at a positive distance preserves the class invariant |
| Invariants.AssignFromMove | SilkRoad.java:416-425 | an assignment at a positive distance preserves the class invariant because the move by the signed distance does |
| Invariants.ApplyPlanValid | SilkRoad.java:383-434 | the assignment loop preserves the class invariant |
| Invariants.MoveRobotsValid | SilkRoad.java:344-446 | `moveRobots` preserves the class invariant |
| Properties.MoveRobotProfit | SilkRoad.java:527-534 | a move changes `profit()` by the coins it collected minus the metres walked; a refused move changes nothing |
| Properties.MoveOntoOccupied | SilkRoad.java:291-303 | a move onto an occupied segment lists the robot there but leaves the segment as it was, and clears the robot slot it left |
| Properties.MoveOntoFree | SilkRoad.java:291-303 | a move onto a free segment puts the robot in its robot slot and clears the robot slot it left |
| Properties.ApplyDaysAppend | SilkRoad.java:88-111 | applying two parts of a plan one after the other is applying the whole plan |
| Properties.MoveRobotEmptiesStore | SilkRoad.java:309-326 | arriving at a store with a positive balance takes all of it: the store is left at 0 and counted as emptied once more, and other stores are untouched |
| Properties.ListedStoreAt | SilkRoad.java:309-310 | under the class invariant, the store a segment holds is the store listed at that location |
| Properties.EmptiesStoreAt | SilkRoad.java:309-326 | a move onto store `k` holding a positive Java `int` balance reports that balance, leaves the store empty, counts one more emptying and changes no other store |
| Properties.MoveRobotWithoutStore | SilkRoad.java:309 | arriving where no store is listed collects nothing and leaves the stores alone |
| Properties.ReturnRobotsStartsOver | SilkRoad.java:448-479 | after `returnRobots`, `profit()` is the coins held, no move is recorded, and `profitPerMove` falls back to `[home, coins]` rows |
| Properties.PlaceThenRemoveStore | SilkRoad.java:138-205 | placing a store on a free cell and removing it restores the segments, lists, costs and ceiling |
| Properties.PlaceThenRemoveRobot | SilkRoad.java:207-273 | placing a robot on a free cell and removing it restores the segments, lists, costs and bar |
| Properties.SameButFirstRest | SilkRoad.java:88-89 | two plans that agree except in column 0 still agree after their first entry |
| Properties.MaxLocationIgnoresFirst | SilkRoad.java:53-59 | the road length does not depend on the first column of the entries |
| Properties.ApplyDaysIgnoresFirst | SilkRoad.java:88-111 | the entries' effect does not depend on their first column |
| Properties.FromDaysIgnoresFirstColumn | SilkRoad.java:52-113 | the day-plan constructor ignores `day[0]`; days are numbered by position |
| Properties.EmptiedRowsAfterResupply | SilkRoad.java:481-491 | restocking leaves the unsorted emptied-store rows as they were |
| Properties.ResupplyKeepsEmptiedStores | SilkRoad.java:481-491 | `emptiedStores()` is the same before and after `resupplyStores` |
| Properties.ResupplyRestoresBalances | SilkRoad.java:481-491 | after `resupplyStores`, `stores()` shows every store at its initial coins |
| Properties.RebootEmptiesReports | SilkRoad.java:493-524 | after `reboot` every query returns nothing and `profit()` is 0 |

## Left out

- Drawing is not modelled. That covers shapes, colours, the colour counters (`resetColorIndex`), visibility (`makeVisible`, `makeInvisible`, `finish`) and the store door. None of it affects the simulation.
- Console messages are not modelled. Each early return is reported as an `Operations.Outcome` value instead.
- The progress bar's pixel width and `getProgressPercentage` are not modelled, because they are floating-point presentation. Only the two integers the bar keeps are modelled.
- Arithmetic uses unbounded integers. Java `int` overflow of coin totals, costs and locations is not modelled. The robot capacity `Integer.MAX_VALUE` is kept as a constant.
- Robots.MoveTo: the pixel-level `moveHorizontal` and `moveVertical` are modelled only as the coordinate updates that `moveTo` composes.
- Robots.ResetDay: `SilkRoad` never calls `resetDay`, so no operation of the model uses it.
- `profitPerMove`'s first loop (the one recomputing a location from the histories) is not modelled. It has no effect beyond setting `hasMovements`.
- Operations.Collect: when a segment holds a store object that is not in the store list, Java still collects from that object; the model replaces this branch by a no-op. The case cannot arise from a valid state (`SilkState.SegmentStoreIsListedStore`), so every lemma about valid states is unaffected.
- Operations.ApplyDays and Operations.FromDays: when two entries ask for the same location, the contracts do not say which of them fills it; they state that a store or a robot ends up listed there and that every added object was asked for. `Operations.ApplyDay` states the effect of each entry exactly, and `Properties.ApplyDaysAppend` composes them.
- The getters (`getCoins`, `getInitialSegment`, `getIndex`, `getLength` and the like) are field reads and have no members of their own.
- Game.java and Canvas.java are not part of this model.
- AutoMove.MoveRobots: the contract does not state the total cost of the moves. `moveRobot(robotLocation, …)` moves whichever robot is listed first at that location when the call is made, so the robot that moves is not always the one the plan names.
- Matching.GreedyIsComplete: the completeness lemma needs every distance below `Integer.MAX_VALUE`. The model does not derive that from the road length.
