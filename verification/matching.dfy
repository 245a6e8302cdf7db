/** The assignment at the heart of `moveRobots`, on the snapshot it takes of
    `robots()` and `stores()`: repeatedly pick, among the robots and stores
    still available, the pair with the smallest distance (the first such pair
    in scan order, since the comparison is strict), assign it, and withdraw
    both. The scan starts from `Integer.MAX_VALUE`, so a pair only counts when
    its distance is below it; when none does, the assignment stops. */
module Matching {
  import opened Util

  /** Locations of the snapshot's robot rows and store rows, and the rows still
      available (as positions in those snapshots). */
  datatype Pool = Pool(robotLocs: seq<int>, storeLocs: seq<int>, robots: seq<nat>, stores: seq<nat>)

  predicate WellFormed(p: Pool) {
    && (forall i :: 0 <= i < |p.robots| ==> p.robots[i] < |p.robotLocs|)
    && (forall j :: 0 <= j < |p.stores| ==> p.stores[j] < |p.storeLocs|)
  }

  /** The distance between the `i`-th available robot and the `j`-th available store. */
  function Dist(p: Pool, i: nat, j: nat): int
    requires WellFormed(p) && i < |p.robots| && j < |p.stores|
  {
    Abs(p.storeLocs[p.stores[j]] - p.robotLocs[p.robots[i]])
  }

  /** Scan order: robots in the outer loop, stores in the inner loop. */
  predicate Before(i': int, j': int, i: int, j: int) {
    i' < i || (i' == i && j' < j)
  }

  /** The pair (`i`, `j`) is the one the scan selects: its distance is below
      `MaxInt`, no pair is nearer, and every pair scanned before it is farther. */
  ghost predicate IsFirstNearest(p: Pool, i: int, j: int)
    requires WellFormed(p)
  {
    && 0 <= i < |p.robots| && 0 <= j < |p.stores|
    && Dist(p, i, j) < MaxInt
    && (forall i', j' :: 0 <= i' < |p.robots| && 0 <= j' < |p.stores| ==> Dist(p, i', j') >= Dist(p, i, j))
    && (forall i', j' :: 0 <= i' < |p.robots| && 0 <= j' < |p.stores| && Before(i', j', i, j) ==>
          Dist(p, i', j') > Dist(p, i, j))
  }

  /** Every remaining pair is closer than `MaxInt` (always so on a road shorter than `MaxInt`). */
  ghost predicate AllClose(p: Pool)
    requires WellFormed(p)
  {
    forall i, j :: 0 <= i < |p.robots| && 0 <= j < |p.stores| ==> Dist(p, i, j) < MaxInt
  }

  /** The running best of the double loop: `minDistance`, `bestRobotIndex`, `bestStoreIndex`. */
  datatype Best = Best(minDistance: int, robot: int, store: int)

  /** `b` is what the loop holds once it has scanned every pair before (`i`, `j`). */
  ghost predicate ScannedUpTo(p: Pool, b: Best, i: int, j: int)
    requires WellFormed(p)
  {
    && (b.robot == -1 ==>
          && b.minDistance == MaxInt
          && forall i', j' :: 0 <= i' < |p.robots| && 0 <= j' < |p.stores| && Before(i', j', i, j) ==>
               Dist(p, i', j') >= MaxInt)
    && (b.robot != -1 ==>
          && 0 <= b.robot < |p.robots| && 0 <= b.store < |p.stores|
          && Before(b.robot, b.store, i, j)
          && b.minDistance == Dist(p, b.robot, b.store) < MaxInt
          && (forall i', j' :: 0 <= i' < |p.robots| && 0 <= j' < |p.stores| && Before(i', j', i, j) ==>
                Dist(p, i', j') >= b.minDistance)
          && (forall i', j' :: 0 <= i' < |p.robots| && 0 <= j' < |p.stores| && Before(i', j', b.robot, b.store) ==>
                Dist(p, i', j') > b.minDistance))
  }

  /** The inner `for` loop over the available stores, for available robot `i`. */
  function ScanStores(p: Pool, i: nat, j: nat, b: Best): (r: Best)
    requires WellFormed(p) && i < |p.robots| && j <= |p.stores|
    requires ScannedUpTo(p, b, i, j)
    ensures ScannedUpTo(p, r, i, |p.stores|)
    decreases |p.stores| - j
  {
    if j == |p.stores| then b
    else
      var d := Dist(p, i, j);
      var next := if d < b.minDistance then Best(d, i, j) else b;
      assert ScannedUpTo(p, next, i, j + 1) by {
        assert forall i', j' :: Before(i', j', i, j + 1) <==> Before(i', j', i, j) || (i' == i && j' == j);
      }
      ScanStores(p, i, j + 1, next)
  }

  /** The outer `for` loop over the available robots, from available robot `i` on. */
  function ScanRobots(p: Pool, i: nat, b: Best): (r: Best)
    requires WellFormed(p) && i <= |p.robots|
    requires ScannedUpTo(p, b, i, 0)
    ensures ScannedUpTo(p, r, |p.robots|, 0)
    decreases |p.robots| - i
  {
    if i == |p.robots| then b
    else
      var next := ScanStores(p, i, 0, b);
      assert ScannedUpTo(p, next, i + 1, 0) by {
        assert forall i', j' :: 0 <= j' < |p.stores| ==> (Before(i', j', i + 1, 0) <==> Before(i', j', i, |p.stores|));
      }
      ScanRobots(p, i + 1, next)
  }

  /** One pass of the double loop, from `minDistance = MAX_VALUE` and no best pair.
      It finds no pair exactly when every distance is at least `MaxInt`, and
      otherwise the first nearest pair. */
  function FindBest(p: Pool): (b: Best)
    requires WellFormed(p)
    ensures b.robot == -1 <==> forall i, j :: 0 <= i < |p.robots| && 0 <= j < |p.stores| ==> Dist(p, i, j) >= MaxInt
    ensures b.robot != -1 ==> IsFirstNearest(p, b.robot, b.store) && b.store != -1
    ensures b.robot != -1 ==> b.minDistance == Dist(p, b.robot, b.store)
  {
    var b := ScanRobots(p, 0, Best(MaxInt, -1, -1));
    assert forall i, j :: 0 <= i < |p.robots| && 0 <= j < |p.stores| ==> Before(i, j, |p.robots|, 0);
    b
  }

  /** At most one pair is the first nearest one. */
  lemma FirstNearestIsUnique(p: Pool, i: int, j: int, i2: int, j2: int)
    requires WellFormed(p) && IsFirstNearest(p, i, j) && IsFirstNearest(p, i2, j2)
    ensures i == i2 && j == j2
  {
    assert !Before(i, j, i2, j2) && !Before(i2, j2, i, j);
  }

  /** Withdraws the `i`-th available robot and the `j`-th available store. */
  function Withdraw(p: Pool, i: nat, j: nat): (q: Pool)
    requires WellFormed(p) && i < |p.robots| && j < |p.stores|
    ensures WellFormed(q)
    ensures q.robotLocs == p.robotLocs && q.storeLocs == p.storeLocs
    ensures q.robots == RemoveAt(p.robots, i) && q.stores == RemoveAt(p.stores, j)
  {
    p.(robots := RemoveAt(p.robots, i), stores := RemoveAt(p.stores, j))
  }

  /** Withdrawing a pair keeps every remaining distance below `MaxInt`. */
  lemma WithdrawKeepsClose(p: Pool, i: nat, j: nat)
    requires WellFormed(p) && i < |p.robots| && j < |p.stores| && AllClose(p)
    ensures AllClose(Withdraw(p, i, j))
  {
    var q := Withdraw(p, i, j);
    forall a, c | 0 <= a < |q.robots| && 0 <= c < |q.stores|
      ensures Dist(q, a, c) < MaxInt
    {
      var a' := if a < i then a else a + 1;
      var c' := if c < j then c else c + 1;
      assert q.robots[a] == p.robots[a'] && q.stores[c] == p.stores[c'];
      assert Dist(q, a, c) == Dist(p, a', c');
    }
  }

  /** The `while` loop of `moveRobots`: the assigned pairs, in assignment order, as
      (robot row, store row) of the snapshot. Every pair uses a robot and a store
      that are available. */
  function Greedy(p: Pool): (plan: seq<(nat, nat)>)
    requires WellFormed(p)
    ensures |plan| <= |p.robots| && |plan| <= |p.stores|
    decreases |p.robots|
  {
    if |p.robots| == 0 || |p.stores| == 0 then []
    else
      var b := FindBest(p);
      if b.robot == -1 then []
      else
        var rest := Greedy(Withdraw(p, b.robot, b.store));
        [(p.robots[b.robot], p.stores[b.store])] + rest
  }

  /** The pair uses a robot and a store that are available in `p`. */
  predicate Available(p: Pool, pair: (nat, nat)) {
    pair.0 in p.robots && pair.1 in p.stores
  }

  /** An available pair names a row of each snapshot. */
  lemma AvailableInRange(p: Pool, pair: (nat, nat))
    requires WellFormed(p) && Available(p, pair)
    ensures pair.0 < |p.robotLocs| && pair.1 < |p.storeLocs|
  {
    var i :| 0 <= i < |p.robots| && p.robots[i] == pair.0;
    var j :| 0 <= j < |p.stores| && p.stores[j] == pair.1;
  }

  /** Every pair uses a robot and a store that are available. */
  lemma {:induction false} GreedyUsesAvailable(p: Pool)
    requires WellFormed(p)
    ensures forall k :: 0 <= k < |Greedy(p)| ==> Available(p, Greedy(p)[k])
    decreases |p.robots|
  {
    if |p.robots| > 0 && |p.stores| > 0 {
      var b := FindBest(p);
      if b.robot != -1 {
        var q := Withdraw(p, b.robot, b.store);
        GreedyUsesAvailable(q);
        var rest := Greedy(q);
        var plan := [(p.robots[b.robot], p.stores[b.store])] + rest;
        assert Greedy(p) == plan;
        forall k | 0 < k < |plan|
          ensures Available(p, plan[k])
        {
          assert plan[k] == rest[k - 1];
          assert Available(q, rest[k - 1]);
          RemoveAtMembership(p.robots, b.robot, plan[k].0);
          RemoveAtMembership(p.stores, b.store, plan[k].1);
        }
      }
    }
  }

  /** The first assignment is the first nearest pair, and the rest are the
      assignments of the pool without that robot and that store. */
  lemma GreedyStartsNearest(p: Pool)
    requires WellFormed(p)
    ensures var plan := Greedy(p);
      |plan| > 0 ==> exists i, j ::
        && IsFirstNearest(p, i, j)
        && plan == [(p.robots[i], p.stores[j])] + Greedy(Withdraw(p, i, j))
  {
    if |p.robots| > 0 && |p.stores| > 0 {
      var b := FindBest(p);
      if b.robot != -1 {
        assert IsFirstNearest(p, b.robot, b.store);
      }
    }
  }

  /** No robot row and no store row occurs in two pairs of `plan`. */
  predicate UsesEachOnce(plan: seq<(nat, nat)>) {
    forall k, l :: 0 <= k < l < |plan| ==> plan[k].0 != plan[l].0 && plan[k].1 != plan[l].1
  }

  /** Each robot and each store is assigned at most once. */
  lemma {:induction false} GreedyUsesEachOnce(p: Pool)
    requires WellFormed(p) && Distinct(p.robots) && Distinct(p.stores)
    ensures UsesEachOnce(Greedy(p))
    decreases |p.robots|
  {
    if |p.robots| > 0 && |p.stores| > 0 {
      var b := FindBest(p);
      if b.robot != -1 {
        var q := Withdraw(p, b.robot, b.store);
        var first := (p.robots[b.robot], p.stores[b.store]);
        RemoveAtDistinct(p.robots, b.robot);
        RemoveAtDistinct(p.stores, b.store);
        GreedyUsesEachOnce(q);
        GreedyUsesAvailable(q);
        var rest := Greedy(q);
        assert first.0 !in q.robots && first.1 !in q.stores;
        assert forall l :: 0 <= l < |rest| ==> rest[l].0 != first.0 && rest[l].1 != first.1 by {
          forall l | 0 <= l < |rest|
            ensures rest[l].0 != first.0 && rest[l].1 != first.1
          {
            assert Available(q, rest[l]);
          }
        }
        assert Greedy(p) == [first] + rest;
        UsesEachOnceCons(first, rest);
      }
    }
  }

  lemma UsesEachOnceCons(first: (nat, nat), rest: seq<(nat, nat)>)
    requires UsesEachOnce(rest)
    requires forall l :: 0 <= l < |rest| ==> rest[l].0 != first.0 && rest[l].1 != first.1
    ensures UsesEachOnce([first] + rest)
  {
    var plan := [first] + rest;
    forall k, l | 0 <= k < l < |plan|
      ensures plan[k].0 != plan[l].0 && plan[k].1 != plan[l].1
    {
      assert plan[l] == rest[l - 1];
      if k > 0 {
        assert plan[k] == rest[k - 1];
      }
    }
  }

  /** When every distance is below `MaxInt`, the loop only stops once robots or
      stores run out. */
  lemma {:induction false} GreedyIsComplete(p: Pool)
    requires WellFormed(p) && AllClose(p)
    ensures |Greedy(p)| == Min(|p.robots|, |p.stores|)
    decreases |p.robots|
  {
    if |p.robots| > 0 && |p.stores| > 0 {
      var b := FindBest(p);
      assert Dist(p, 0, 0) < MaxInt;
      WithdrawKeepsClose(p, b.robot, b.store);
      GreedyIsComplete(Withdraw(p, b.robot, b.store));
    }
  }
}
