/**
 * Sharing workers over the selected routes (`allocateAiRouteWorkers` in src/core/ai-route-pool.js): round robin
 * under caps in automatic mode, and the owner's fixed numbers, best route first, in manual mode.
 */
module WorkerAllocation {
  import opened Common
  import opened RoutePool

  datatype Mode = AUTO | MANUAL

  datatype WorkerPolicy = WorkerPolicy(mode: Mode, minWorkers: nat, maxParallelWorkers: nat, manualRouteWorkers: map<Id, nat>)

  datatype Allocation = Allocation(
    allocations: map<Id, nat>, assignedWorkers: nat, unassignedWorkers: nat, eligibleRouteIds: seq<Id>, retryAt: nat)

  // ------------------------------------------------- shares of one target

  function Sum(xs: seq<nat>): nat {
    if xs == [] then 0 else Sum(xs[..|xs| - 1]) + xs[|xs| - 1]
  }

  /** Nobody is above the cap, and no worker is kept back while somebody has room. */
  ghost predicate Shares(caps: seq<nat>, target: nat, xs: seq<nat>) {
    && |xs| == |caps| && (forall i | 0 <= i < |xs| :: xs[i] <= caps[i])
    && Sum(xs) == Min(target, Sum(caps))
  }

  /**
   * Max-min fairness with ties broken by rank: whoever is below the cap is at most one behind anybody, and
   * behind nobody who comes later.
   */
  ghost predicate Fair(caps: seq<nat>, xs: seq<nat>)
    requires |xs| == |caps|
  {
    forall i, j | 0 <= i < |xs| && 0 <= j < |xs| && xs[i] < caps[i] ::
      xs[j] <= xs[i] + 1 && (i < j ==> xs[j] <= xs[i])
  }

  /** Greedy: whoever gets anything stands behind full routes only. */
  ghost predicate Greedy(caps: seq<nat>, xs: seq<nat>)
    requires |xs| == |caps|
  {
    forall i, j | 0 <= i < j < |xs| && xs[j] > 0 :: xs[i] == caps[i]
  }

  lemma {:induction false} SumMonotone(xs: seq<nat>, ys: seq<nat>)
    requires |xs| == |ys| && forall i | 0 <= i < |xs| :: xs[i] <= ys[i]
    ensures Sum(xs) <= Sum(ys)
    ensures Sum(xs) == Sum(ys) ==> xs == ys
  {
    if xs != [] {
      var n := |xs| - 1;
      SumMonotone(xs[..n], ys[..n]);
      assert xs == xs[..n] + [xs[n]] && ys == ys[..n] + [ys[n]];
    }
  }

  /** Two different shares of the same total: somebody is better off in each. */
  lemma Traded(xs: seq<nat>, ys: seq<nat>) returns (i: nat, j: nat)
    requires |xs| == |ys| && Sum(xs) == Sum(ys) && xs != ys
    ensures i < |xs| && xs[i] < ys[i]
    ensures j < |xs| && xs[j] > ys[j]
  {
    if forall k | 0 <= k < |xs| :: xs[k] <= ys[k] { SumMonotone(xs, ys); }
    if forall k | 0 <= k < |xs| :: ys[k] <= xs[k] { SumMonotone(ys, xs); }
    j :| 0 <= j < |xs| && xs[j] > ys[j];
    i :| 0 <= i < |xs| && xs[i] < ys[i];
  }

  lemma TradeIsNotFair(caps: seq<nat>, xs: seq<nat>, ys: seq<nat>, i: nat, j: nat)
    requires |xs| == |ys| == |caps| && i < |xs| && j < |xs| && xs[i] < ys[i] <= caps[i] && ys[j] < xs[j] <= caps[j]
    ensures !(Fair(caps, xs) && Fair(caps, ys))
  {
    assert Fair(caps, xs) ==> xs[j] <= xs[i] + 1 && (i < j ==> xs[j] <= xs[i]);
    assert Fair(caps, ys) ==> ys[i] <= ys[j] + 1 && (j < i ==> ys[i] <= ys[j]);
  }

  lemma TradeIsNotGreedy(caps: seq<nat>, xs: seq<nat>, ys: seq<nat>, i: nat, j: nat)
    requires |xs| == |ys| == |caps| && i < |xs| && j < |xs| && xs[i] < ys[i] <= caps[i] && ys[j] < xs[j] <= caps[j]
    ensures !(Greedy(caps, xs) && Greedy(caps, ys))
  {
    assert i < j ==> !Greedy(caps, xs);
    assert j < i ==> !Greedy(caps, ys);
  }

  /** There is only one fair way to share a target. */
  lemma FairIsUnique(caps: seq<nat>, target: nat, xs: seq<nat>, ys: seq<nat>)
    requires Shares(caps, target, xs) && Fair(caps, xs)
    requires Shares(caps, target, ys) && Fair(caps, ys)
    ensures xs == ys
  {
    if xs != ys {
      var i, j := Traded(xs, ys);
      TradeIsNotFair(caps, xs, ys, i, j);
    }
  }

  /** There is only one greedy way to share a target. */
  lemma GreedyIsUnique(caps: seq<nat>, target: nat, xs: seq<nat>, ys: seq<nat>)
    requires Shares(caps, target, xs) && Greedy(caps, xs)
    requires Shares(caps, target, ys) && Greedy(caps, ys)
    ensures xs == ys
  {
    if xs != ys {
      var i, j := Traded(xs, ys);
      TradeIsNotGreedy(caps, xs, ys, i, j);
    }
  }

  /**
   * The fair share is the best one can do for the worst off: any other share of the target that gives somebody
   * more takes it from somebody who had no more than that.
   */
  lemma FairIsMaxMin(caps: seq<nat>, target: nat, xs: seq<nat>, ys: seq<nat>, i: nat) returns (j: nat)
    requires Shares(caps, target, xs) && Fair(caps, xs) && Shares(caps, target, ys)
    requires i < |xs| && ys[i] > xs[i]
    ensures j < |xs| && ys[j] < xs[j] <= ys[i]
  {
    var i', j' := Traded(xs, ys);
    j := j';
    assert xs[i] < caps[i];
  }

  // --------------------------------------------------------- round robin

  /** Every route is filled up to `level`, the first `k` of them to one more, caps permitting. */
  ghost predicate Level(caps: seq<nat>, xs: seq<nat>, level: nat, k: nat) {
    |xs| == |caps| && forall i | 0 <= i < |xs| :: xs[i] == Min(caps[i], if i < k then level + 1 else level)
  }

  lemma LevelIsFair(caps: seq<nat>, xs: seq<nat>, level: nat, k: nat)
    requires Level(caps, xs, level, k)
    ensures Fair(caps, xs)
  {
  }

  lemma {:induction false} SumUpdate(xs: seq<nat>, i: nat, x: nat)
    requires i < |xs|
    ensures Sum(xs[i := x]) + xs[i] == Sum(xs) + x
  {
    var n := |xs| - 1;
    if i < n {
      SumUpdate(xs[..n], i, x);
      assert xs[i := x][..n] == xs[..n][i := x];
    } else {
      assert xs[i := x][..n] == xs[..n];
    }
  }

  lemma {:induction false} SumOfZeros(xs: seq<nat>)
    requires forall i | 0 <= i < |xs| :: xs[i] == 0
    ensures Sum(xs) == 0
  {
    if xs != [] { SumOfZeros(xs[..|xs| - 1]); }
  }

  /** One turn of the inner loop: every route with room gets one worker while there are any. */
  method OneRound(caps: seq<nat>, start: seq<nat>, available: nat, ghost level: nat)
    returns (xs: seq<nat>, remaining: nat, progressed: bool)
    requires Level(caps, start, level, 0) && available > 0
    ensures exists k: nat :: k <= |caps| && Level(caps, xs, level, k) && (remaining > 0 ==> k == |caps|)
    ensures Sum(xs) + remaining == Sum(start) + available
    ensures progressed <==> remaining < available
    ensures !progressed ==> xs == start && forall i | 0 <= i < |caps| :: xs[i] == caps[i]
  {
    xs, remaining, progressed := start, available, false;
    var i := 0;
    while i < |caps|
      invariant i <= |caps| && Level(caps, xs, level, i) && remaining <= available
      invariant Sum(xs) + remaining == Sum(start) + available
      invariant progressed <==> remaining < available
      invariant !progressed ==> xs == start && forall j | 0 <= j < i :: xs[j] == caps[j]
    {
      if remaining <= 0 { break; }
      if xs[i] < caps[i] {
        SumUpdate(xs, i, xs[i] + 1);
        xs := xs[i := xs[i] + 1];
        remaining := remaining - 1;
        progressed := true;
      }
      i := i + 1;
    }
  }

  /** Round robin until the workers or the room run out. */
  method RoundRobin(caps: seq<nat>, target: nat) returns (xs: seq<nat>, remaining: nat)
    ensures Shares(caps, target, xs) && Fair(caps, xs)
    ensures Sum(xs) + remaining == target
  {
    xs := seq(|caps|, _ => 0);
    SumOfZeros(xs);
    remaining := target;
    ghost var level: nat, k: nat := 0, 0;
    var progressed := true;
    while remaining > 0 && progressed
      invariant k <= |caps| && Level(caps, xs, level, k) && (remaining > 0 ==> k == 0)
      invariant Sum(xs) + remaining == target
      invariant !progressed ==> forall i | 0 <= i < |caps| :: xs[i] == caps[i]
      decreases remaining, progressed
    {
      ghost var before := xs;
      xs, remaining, progressed := OneRound(caps, xs, remaining, level);
      ghost var reached: nat :| reached <= |caps| && Level(caps, xs, level, reached) && (remaining > 0 ==> reached == |caps|);
      if remaining > 0 {
        level, k := level + 1, 0;
      } else {
        k := reached;
      }
    }
    LevelIsFair(caps, xs, level, k);
    SumMonotone(xs, caps);
    if remaining > 0 { assert xs == caps; }
  }

  /** The owner's numbers in ranking order, cut off when the target is reached. */
  method TakeInOrder(caps: seq<nat>, target: nat) returns (xs: seq<nat>, remaining: nat)
    ensures Shares(caps, target, xs) && Greedy(caps, xs)
    ensures Sum(xs) + remaining == target
  {
    xs := seq(|caps|, _ => 0);
    SumOfZeros(xs);
    remaining := target;
    var i := 0;
    while i < |caps|
      invariant i <= |caps| == |xs|
      invariant Sum(xs) + remaining == target
      invariant forall j | 0 <= j < i :: xs[j] <= caps[j]
      invariant forall j | i <= j < |xs| :: xs[j] == 0
      invariant remaining > 0 ==> forall j | 0 <= j < i :: xs[j] == caps[j]
      invariant Greedy(caps, xs)
    {
      if remaining <= 0 { break; }
      SumUpdate(xs, i, Min(remaining, caps[i]));
      xs := xs[i := Min(remaining, caps[i])];
      remaining := remaining - xs[i];
      i := i + 1;
    }
    SumMonotone(xs, caps);
    if remaining > 0 { assert xs == caps; }
  }

  // ------------------------------------------------------- the allocation

  function Target(w: WorkerPolicy, desired: nat): nat {
    var wanted := if desired > 0 && w.mode.AUTO? then Max(desired, w.minWorkers) else desired;
    Min(wanted, w.maxParallelWorkers)
  }

  function CapOf(w: WorkerPolicy, r: Route): nat {
    match w.mode
    case AUTO => if r.maxWorkers > 0 then r.maxWorkers else w.maxParallelWorkers
    case MANUAL =>
      var configured := if r.routeId in w.manualRouteWorkers then w.manualRouteWorkers[r.routeId] else 0;
      if r.maxWorkers > 0 then Min(configured, r.maxWorkers) else configured
  }

  /**
   * How many workers are sought: what is asked for, and in automatic mode at least the owner's minimum once anything is,
   * but never more than run at once.
   */
  lemma TargetMeans(w: WorkerPolicy, desired: nat)
    ensures desired == 0 ==> Target(w, desired) == 0
    ensures desired > w.maxParallelWorkers ==> Target(w, desired) == w.maxParallelWorkers
    ensures desired <= w.maxParallelWorkers && (w.mode.MANUAL? || desired >= w.minWorkers) ==> Target(w, desired) == desired
    ensures 0 < desired < w.minWorkers <= w.maxParallelWorkers && w.mode.AUTO? ==> Target(w, desired) == w.minWorkers
    ensures 0 < desired <= w.maxParallelWorkers < w.minWorkers && w.mode.AUTO? ==> Target(w, desired) == w.maxParallelWorkers
  {
  }

  /**
   * How many workers a route can take: its own limit if it has one; else in automatic mode as many as run at once, and in
   * manual mode as many as the owner wrote for it, none if nothing is written.
   */
  lemma CapMeans(w: WorkerPolicy, r: Route)
    ensures w.mode.AUTO? && r.maxWorkers > 0 ==> CapOf(w, r) == r.maxWorkers
    ensures w.mode.AUTO? && r.maxWorkers == 0 ==> CapOf(w, r) == w.maxParallelWorkers
    ensures w.mode.MANUAL? && r.routeId !in w.manualRouteWorkers ==> CapOf(w, r) == 0
    ensures w.mode.MANUAL? && r.routeId in w.manualRouteWorkers ==>
              && CapOf(w, r) <= w.manualRouteWorkers[r.routeId] && (r.maxWorkers > 0 ==> CapOf(w, r) <= r.maxWorkers)
              && (CapOf(w, r) == w.manualRouteWorkers[r.routeId] || (r.maxWorkers > 0 && CapOf(w, r) == r.maxWorkers))
  {
  }

  function Caps(w: WorkerPolicy, candidates: seq<Route>): (caps: seq<nat>)
    ensures |caps| == |candidates| && forall i | 0 <= i < |caps| :: caps[i] == CapOf(w, candidates[i])
  {
    seq(|candidates|, i requires 0 <= i < |candidates| => CapOf(w, candidates[i]))
  }

  /** What each candidate got, in ranking order. */
  function Got(a: map<Id, nat>, candidates: seq<Route>): (xs: seq<nat>)
    requires forall r <- candidates :: r.routeId in a
    ensures |xs| == |candidates| && forall i | 0 <= i < |xs| :: xs[i] == a[candidates[i].routeId]
  {
    seq(|candidates|, i requires 0 <= i < |candidates| => a[candidates[i].routeId])
  }

  /** The fair share in automatic mode, the greedy one in manual mode. */
  ghost predicate ShareOf(w: WorkerPolicy, candidates: seq<Route>, target: nat, xs: seq<nat>) {
    && Shares(Caps(w, candidates), target, xs)
    && (if w.mode.AUTO? then Fair(Caps(w, candidates), xs) else Greedy(Caps(w, candidates), xs))
  }

  ghost predicate Allocated(pool: seq<Route>, candidates: seq<Route>, w: WorkerPolicy, target: nat, a: map<Id, nat>)
    requires forall r <- candidates :: r in pool
  {
    && (forall id :: id in a <==> exists r <- pool :: r.routeId == id)
    && (forall r <- candidates :: r.routeId in a)
    && (forall r <- pool :: r in candidates || (r.routeId in a && a[r.routeId] == 0))
    && ShareOf(w, candidates, target, Got(a, candidates))
  }

  method NoWorkers(pool: seq<Route>) returns (a: map<Id, nat>)
    ensures forall id :: id in a <==> exists r <- pool :: r.routeId == id
    ensures forall id | id in a :: a[id] == 0
  {
    a := map[];
    for i := 0 to |pool|
      invariant forall id :: id in a <==> exists k | 0 <= k < i :: pool[k].routeId == id
      invariant forall id | id in a :: a[id] == 0
    {
      a := a[pool[i].routeId := 0];
    }
  }

  method Assign(a: map<Id, nat>, candidates: seq<Route>, xs: seq<nat>) returns (b: map<Id, nat>)
    requires |xs| == |candidates| && DistinctRoutes(candidates) && forall r <- candidates :: r.routeId in a
    ensures b.Keys == a.Keys && Got(b, candidates) == xs
    ensures forall id | id in b && (forall r <- candidates :: r.routeId != id) :: b[id] == a[id]
  {
    b := a;
    for i := 0 to |candidates|
      invariant b.Keys == a.Keys
      invariant forall k | 0 <= k < i :: b[candidates[k].routeId] == xs[k]
      invariant forall id | id in b && (forall k | 0 <= k < i :: candidates[k].routeId != id) :: b[id] == a[id]
    {
      assert candidates[i] in candidates;
      b := b[candidates[i].routeId := xs[i]];
    }
    forall r | r in candidates ensures r.routeId in b {}
    forall id | id in b && (forall r <- candidates :: r.routeId != id) ensures b[id] == a[id] {
      forall k | 0 <= k < |candidates| ensures candidates[k].routeId != id { assert candidates[k] in candidates; }
    }
  }

  lemma RankedIsDistinct(s: seq<Route>, rank: Route -> Rank, pool: seq<Route>)
    requires Ranked(s, rank) && DistinctRoutes(pool) && forall r <- s :: r in pool
    ensures DistinctRoutes(s)
  {
    forall i, j | 0 <= i < j < |s| ensures s[i].routeId != s[j].routeId {
      AheadIsTotal(rank(s[i]), rank(s[j]));
      assert s[i] in pool && s[j] in pool;
      var x :| 0 <= x < |pool| && pool[x] == s[i];
      var y :| 0 <= y < |pool| && pool[y] == s[j];
    }
  }

  /** One share for each candidate. */
  method ShareOut(w: WorkerPolicy, candidates: seq<Route>, target: nat) returns (xs: seq<nat>, remaining: nat)
    ensures ShareOf(w, candidates, target, xs) && Sum(xs) + remaining == target
  {
    if target == 0 || candidates == [] {
      xs, remaining := seq(|candidates|, _ => 0), target;
      NothingToShare(Caps(w, candidates), target, xs);
    } else if w.mode.MANUAL? {
      xs, remaining := TakeInOrder(Caps(w, candidates), target);
    } else {
      xs, remaining := RoundRobin(Caps(w, candidates), target);
    }
  }

  method SpreadOver(pool: seq<Route>, candidates: seq<Route>, w: WorkerPolicy, target: nat)
    returns (a: map<Id, nat>, remaining: nat)
    requires DistinctRoutes(pool) && DistinctRoutes(candidates) && forall r <- candidates :: r in pool
    ensures Allocated(pool, candidates, w, target, a)
    ensures Min(target, Sum(Caps(w, candidates))) + remaining == target
  {
    hide ShareOf, Sum, Caps;
    var empty := NoWorkers(pool);
    var xs, rest := ShareOut(w, candidates, target);
    remaining := rest;
    ShareTotal(w, candidates, target, xs);
    a := Assign(empty, candidates, xs);
    forall r | r in pool ensures r in candidates || (r.routeId in a && a[r.routeId] == 0) {
      if r !in candidates { OthersAreOutside(pool, candidates, r); }
    }
  }

  lemma ShareTotal(w: WorkerPolicy, candidates: seq<Route>, target: nat, xs: seq<nat>)
    requires ShareOf(w, candidates, target, xs)
    ensures |xs| == |candidates| && Sum(xs) == Min(target, Sum(Caps(w, candidates)))
  {
  }

  lemma OthersAreOutside(pool: seq<Route>, candidates: seq<Route>, r: Route)
    requires DistinctRoutes(pool) && (forall c <- candidates :: c in pool) && r in pool && r !in candidates
    ensures forall c <- candidates :: c.routeId != r.routeId
  {
    forall c | c in candidates ensures c.routeId != r.routeId {
      var i :| 0 <= i < |pool| && pool[i] == r;
      var j :| 0 <= j < |pool| && pool[j] == c;
    }
  }

  /** Every selected route gets its share of the target, everybody else nothing, and no worker is lost. */
  method AllocateWorkers(pool: seq<Route>, p: Policy, w: WorkerPolicy, states: map<Id, RouteState>, q: Request, desired: nat, now: nat)
    returns (r: Allocation)
    requires DistinctRoutes(pool)
    ensures var s := SelectCandidates(pool, p.(autoSwitch := true), states, q, now);
            var target := Target(w, desired);
            && (forall c <- s.candidates :: c in pool)
            && Allocated(pool, s.candidates, w, target, r.allocations)
            && r.assignedWorkers == Min(target, Sum(Caps(w, s.candidates)))
            && r.assignedWorkers + r.unassignedWorkers == target
            && r.eligibleRouteIds == s.eligibleRouteIds && r.retryAt == s.retryAt
  {
    hide Allocated, Caps, Sum, Target;
    var target := Target(w, desired);
    var selected := SelectCandidates(pool, p.(autoSwitch := true), states, q, now);
    CandidatesAreExact(pool, p.(autoSwitch := true), states, q, now);
    hide SelectCandidates, Eligible, Available;
    RankedIsDistinct(selected.candidates, RankOf(p.(autoSwitch := true), states), pool);
    var allocations, remaining := SpreadOver(pool, selected.candidates, w, target);
    r := Allocation(allocations, target - remaining, remaining, selected.eligibleRouteIds, selected.retryAt);
  }

  lemma NothingToShare(caps: seq<nat>, target: nat, xs: seq<nat>)
    requires |xs| == |caps| && (target == 0 || caps == []) && forall i | 0 <= i < |xs| :: xs[i] == 0
    ensures Shares(caps, target, xs) && Greedy(caps, xs)
    ensures Fair(caps, xs)
  {
    SumOfZeros(xs);
  }
}
