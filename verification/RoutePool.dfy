/**
 * The AI route pool of src/core/ai-route-pool.js: which routes a request may use, in which order, and since when.
 * Routes, policies and states are taken after their own validation; prices are exact numbers.
 */
module RoutePool {
  import opened Common
  import Sorting

  type Id = Text

  datatype Role = PLANNER | CODER | FAST_WORKER | VERIFIER | CRITIC | VISION

  datatype Locality = LOCAL | REMOTE

  datatype CostClass = FREE | PAID | UNKNOWN

  datatype Route = Route(
    routeId: Id, roles: set<Role>, capabilityIds: set<Id>, priority: nat, enabled: bool, locality: Locality,
    costClass: CostClass, inputPrice: real, outputPrice: real, inputPriceKnown: bool, outputPriceKnown: bool,
    supportsVision: bool, maxWorkers: nat)

  /** No locality and no price cap mean any; an empty allow list means no restriction. */
  datatype Policy = Policy(
    autoSwitch: bool, pinned: Option<Id>, ordered: seq<Id>, allow: seq<Id>, deny: seq<Id>, freeOnly: bool,
    locality: Option<Locality>, maxInputPrice: Option<real>, maxOutputPrice: Option<real>,
    retryBackoffSeconds: nat, circuitBreakerFailures: nat, circuitBreakerSeconds: nat)

  datatype RouteState = RouteState(
    consecutiveFailures: nat, successes: nat, failures: nat, backoffUntil: nat, circuitOpenUntil: nat, lastLatencyMs: nat)

  datatype Request = Request(role: Role, capabilityIds: set<Id>, requiresVision: bool)

  datatype Selection = Selection(candidates: seq<Route>, eligibleRouteIds: seq<Id>, retryAt: nat)

  predicate DistinctRoutes(pool: seq<Route>) {
    forall i, j | 0 <= i < j < |pool| :: pool[i].routeId != pool[j].routeId
  }

  // ---------------------------------------------------------- eligibility

  predicate WithinCap(price: real, cap: Option<real>) { cap.Some? ==> price <= cap.value }

  predicate Affordable(r: Route) {
    r.costClass.FREE? || (r.costClass.PAID? && r.inputPriceKnown && r.outputPriceKnown)
  }

  predicate Serves(r: Route, q: Request) {
    (r.roles == {} || q.role in r.roles) && q.capabilityIds <= r.capabilityIds && (q.requiresVision ==> r.supportsVision)
  }

  predicate Eligible(r: Route, p: Policy, q: Request) {
    && r.enabled && (p.allow == [] || r.routeId in p.allow) && r.routeId !in p.deny
    && (p.freeOnly ==> r.costClass.FREE?) && Affordable(r)
    && (p.locality.Some? ==> r.locality == p.locality.value)
    && WithinCap(r.inputPrice, p.maxInputPrice) && WithinCap(r.outputPrice, p.maxOutputPrice)
    && Serves(r, q)
    && (p.pinned.Some? ==> r.routeId == p.pinned.value)
  }

  // -------------------------------------------------------------- ranking

  /** What the comparison looks at, in this order; smaller comes first. */
  datatype Rank = Rank(order: int, urgency: int, latency: int, id: Id)

  predicate Ahead(a: Rank, b: Rank) {
    if a.order != b.order then a.order < b.order
    else if a.urgency != b.urgency then a.urgency < b.urgency
    else if a.latency != b.latency then a.latency < b.latency
    else Sorting.Less(a.id, b.id)
  }

  function IndexIn(ids: seq<Id>, id: Id): (i: nat)
    ensures i <= |ids| && (i < |ids| <==> id in ids)
    ensures i < |ids| ==> ids[i] == id
  {
    if ids == [] || ids[0] == id then 0 else 1 + IndexIn(ids[1..], id)
  }

  function OrderOf(p: Policy, id: Id): int {
    if id in p.ordered then IndexIn(p.ordered, id) else MAX_SAFE_INTEGER
  }

  /** A latency of zero was never measured. */
  function LatencyOf(states: map<Id, RouteState>, id: Id): int {
    if id in states && states[id].lastLatencyMs != 0 then states[id].lastLatencyMs else MAX_SAFE_INTEGER
  }

  function RankOf(p: Policy, states: map<Id, RouteState>): Route -> Rank {
    (r: Route) => Rank(OrderOf(p, r.routeId), 0 - r.priority, LatencyOf(states, r.routeId), r.routeId)
  }

  lemma AheadIsTotal(a: Rank, b: Rank)
    ensures !(Ahead(a, b) && Ahead(b, a))
    ensures a != b ==> Ahead(a, b) || Ahead(b, a)
  {
    Sorting.LessIsTotal(a.id, b.id);
  }

  lemma AheadIsTransitive(a: Rank, b: Rank, c: Rank)
    requires Ahead(a, b) && Ahead(b, c)
    ensures Ahead(a, c)
  {
    if a.order == b.order == c.order && a.urgency == b.urgency == c.urgency && a.latency == b.latency == c.latency {
      Sorting.LessIsTransitive(a.id, b.id, c.id);
    }
  }

  ghost predicate Ranked(s: seq<Route>, rank: Route -> Rank) {
    forall i, j | 0 <= i < j < |s| :: Ahead(rank(s[i]), rank(s[j]))
  }

  function Insert(x: Route, s: seq<Route>, rank: Route -> Rank): seq<Route> {
    if s == [] || !Ahead(rank(s[0]), rank(x)) then [x] + s else [s[0]] + Insert(x, s[1..], rank)
  }

  function SortRoutes(s: seq<Route>, rank: Route -> Rank): seq<Route> {
    if s == [] then [] else Insert(s[0], SortRoutes(s[1..], rank), rank)
  }

  lemma {:induction false} InsertMember(x: Route, s: seq<Route>, rank: Route -> Rank, y: Route)
    ensures y in Insert(x, s, rank) <==> y == x || y in s
  {
    if s != [] && Ahead(rank(s[0]), rank(x)) {
      InsertMember(x, s[1..], rank, y);
      assert s == [s[0]] + s[1..];
    }
  }

  lemma {:induction false} SortMember(s: seq<Route>, rank: Route -> Rank, y: Route)
    ensures y in SortRoutes(s, rank) <==> y in s
  {
    if s != [] {
      SortMember(s[1..], rank, y);
      InsertMember(s[0], SortRoutes(s[1..], rank), rank, y);
      assert s == [s[0]] + s[1..];
    }
  }

  lemma {:induction false} InsertRanks(x: Route, s: seq<Route>, rank: Route -> Rank)
    requires Ranked(s, rank) && forall y <- s :: rank(y) != rank(x)
    ensures Ranked(Insert(x, s, rank), rank)
  {
    if s != [] {
      AheadIsTotal(rank(s[0]), rank(x));
      if Ahead(rank(s[0]), rank(x)) {
        InsertRanks(x, s[1..], rank);
        var t := Insert(x, s[1..], rank);
        forall j | 0 <= j < |t| ensures Ahead(rank(s[0]), rank(t[j])) {
          InsertMember(x, s[1..], rank, t[j]);
          assert t[j] in t;
          if t[j] in s[1..] { var k :| 0 <= k < |s[1..]| && s[1..][k] == t[j]; assert s[k + 1] == t[j]; }
        }
      } else {
        forall j | 0 < j < |s| ensures Ahead(rank(x), rank(s[j])) {
          AheadIsTransitive(rank(x), rank(s[0]), rank(s[j]));
        }
      }
    }
  }

  /** The comparison ends with the route id, so it never ties. */
  lemma {:induction false} SortRanks(s: seq<Route>, p: Policy, states: map<Id, RouteState>)
    requires DistinctRoutes(s)
    ensures Ranked(SortRoutes(s, RankOf(p, states)), RankOf(p, states))
  {
    var rank := RankOf(p, states);
    if s != [] {
      SortRanks(s[1..], p, states);
      var t := SortRoutes(s[1..], rank);
      forall y | y in t ensures rank(y) != rank(s[0]) {
        SortMember(s[1..], rank, y);
        var i :| 0 <= i < |s[1..]| && s[1..][i] == y;
        assert s[i + 1] == y;
      }
      InsertRanks(s[0], t, rank);
    }
  }

  /** A ranked list is determined by its members. */
  lemma {:induction false} RankedIsUnique(a: seq<Route>, b: seq<Route>, rank: Route -> Rank)
    requires Ranked(a, rank) && Ranked(b, rank) && forall r :: r in a <==> r in b
    ensures a == b
  {
    if a != [] { assert a[0] in b; }
    if b != [] { assert b[0] in a; }
    if a != [] {
      FirstIsLeast(a, b[0], rank);
      FirstIsLeast(b, a[0], rank);
      AheadIsTotal(rank(a[0]), rank(b[0]));
      forall r ensures r in a[1..] <==> r in b[1..] {
        if r in a[1..] { NotInTail(a, r, rank); assert r in b && r != b[0]; }
        if r in b[1..] { NotInTail(b, r, rank); assert r in a && r != a[0]; }
      }
      RankedIsUnique(a[1..], b[1..], rank);
      assert a == [a[0]] + a[1..] && b == [b[0]] + b[1..];
    }
  }

  lemma FirstIsLeast(a: seq<Route>, r: Route, rank: Route -> Rank)
    requires Ranked(a, rank) && r in a
    ensures a[0] == r || Ahead(rank(a[0]), rank(r))
  {
    var i :| 0 <= i < |a| && a[i] == r;
  }

  lemma NotInTail(a: seq<Route>, r: Route, rank: Route -> Rank)
    requires Ranked(a, rank) && a != [] && r in a[1..]
    ensures r != a[0]
  {
    var i :| 1 <= i < |a| && a[i] == r;
    AheadIsTotal(rank(a[0]), rank(a[i]));
  }

  // ------------------------------------------------------------ selection

  function Where(s: seq<Route>, keep: Route -> bool): seq<Route> {
    if s == [] then [] else (if keep(s[0]) then [s[0]] else []) + Where(s[1..], keep)
  }

  lemma {:induction false} WhereMember(s: seq<Route>, keep: Route -> bool, r: Route)
    ensures r in Where(s, keep) <==> r in s && keep(r)
  {
    if s != [] {
      WhereMember(s[1..], keep, r);
      assert s == [s[0]] + s[1..];
    }
  }

  lemma {:induction false} WhereRanked(s: seq<Route>, keep: Route -> bool, rank: Route -> Rank)
    requires Ranked(s, rank)
    ensures Ranked(Where(s, keep), rank)
  {
    if s != [] {
      WhereRanked(s[1..], keep, rank);
      var t := Where(s[1..], keep);
      forall j | 0 <= j < |t| ensures Ahead(rank(s[0]), rank(t[j])) {
        WhereMember(s[1..], keep, t[j]);
        assert t[j] in t;
        var i :| 0 <= i < |s[1..]| && s[1..][i] == t[j];
        assert s[i + 1] == t[j];
      }
    }
  }

  lemma {:induction false} WhereDistinct(s: seq<Route>, keep: Route -> bool)
    requires DistinctRoutes(s)
    ensures DistinctRoutes(Where(s, keep))
  {
    if s != [] {
      WhereDistinct(s[1..], keep);
      var t := Where(s[1..], keep);
      forall j | 0 <= j < |t| ensures t[j].routeId != s[0].routeId {
        WhereMember(s[1..], keep, t[j]);
        assert t[j] in t;
        var i :| 0 <= i < |s[1..]| && s[1..][i] == t[j];
        assert s[i + 1] == t[j];
      }
    }
  }

  /** Until when the route is backing off or its circuit is open. */
  function BlockedUntil(states: map<Id, RouteState>, id: Id): nat {
    if id in states then Max(states[id].backoffUntil, states[id].circuitOpenUntil) else 0
  }

  predicate Available(states: map<Id, RouteState>, now: int, r: Route) { BlockedUntil(states, r.routeId) <= now }

  function RouteIds(s: seq<Route>): (ids: seq<Id>)
    ensures |ids| == |s| && forall i | 0 <= i < |s| :: ids[i] == s[i].routeId
  {
    seq(|s|, i requires 0 <= i < |s| => s[i].routeId)
  }

  function EarliestEnd(s: seq<Route>, states: map<Id, RouteState>): nat
    requires s != []
  {
    var first := BlockedUntil(states, s[0].routeId);
    if |s| == 1 then first else Min(first, EarliestEnd(s[1..], states))
  }

  /** All routes the policy and the request allow, best first. */
  function EligibleRoutes(pool: seq<Route>, p: Policy, states: map<Id, RouteState>, q: Request): seq<Route> {
    SortRoutes(Where(pool, (r: Route) => Eligible(r, p, q)), RankOf(p, states))
  }

  function SelectCandidates(pool: seq<Route>, p: Policy, states: map<Id, RouteState>, q: Request, now: nat): Selection {
    var eligible := EligibleRoutes(pool, p, states, q);
    var available := Where(eligible, (r: Route) => Available(states, now, r));
    var retryAt := if eligible != [] && available == [] then EarliestEnd(eligible, states) else 0;
    Selection(if p.autoSwitch || available == [] then available else available[..1], RouteIds(eligible), retryAt)
  }

  // ------------------------------------------------- what the selection is

  lemma EligibleMember(pool: seq<Route>, p: Policy, states: map<Id, RouteState>, q: Request, r: Route)
    ensures r in EligibleRoutes(pool, p, states, q) <==> r in pool && Eligible(r, p, q)
  {
    WhereMember(pool, (r: Route) => Eligible(r, p, q), r);
    SortMember(Where(pool, (r: Route) => Eligible(r, p, q)), RankOf(p, states), r);
  }

  lemma EligibleRanked(pool: seq<Route>, p: Policy, states: map<Id, RouteState>, q: Request)
    requires DistinctRoutes(pool)
    ensures Ranked(EligibleRoutes(pool, p, states, q), RankOf(p, states))
  {
    WhereDistinct(pool, (r: Route) => Eligible(r, p, q));
    SortRanks(Where(pool, (r: Route) => Eligible(r, p, q)), p, states);
  }

  /** With switching on, the candidates are exactly the eligible routes that are not blocked, best first. */
  lemma CandidatesAreExact(pool: seq<Route>, p: Policy, states: map<Id, RouteState>, q: Request, now: nat)
    requires DistinctRoutes(pool) && p.autoSwitch
    ensures var s := SelectCandidates(pool, p, states, q, now);
            && Ranked(s.candidates, RankOf(p, states))
            && forall r :: r in s.candidates <==> r in pool && Eligible(r, p, q) && Available(states, now, r)
  {
    var eligible := EligibleRoutes(pool, p, states, q);
    var keep := (r: Route) => Available(states, now, r);
    EligibleRanked(pool, p, states, q);
    WhereRanked(eligible, keep, RankOf(p, states));
    forall r ensures r in Where(eligible, keep) <==> r in pool && Eligible(r, p, q) && Available(states, now, r) {
      EligibleMember(pool, p, states, q, r);
      WhereMember(eligible, keep, r);
    }
  }

  /** With switching off, the one candidate is the best of those. */
  lemma SingleCandidateIsBest(pool: seq<Route>, p: Policy, states: map<Id, RouteState>, q: Request, now: nat)
    requires DistinctRoutes(pool) && !p.autoSwitch
    ensures var all := SelectCandidates(pool, p.(autoSwitch := true), states, q, now).candidates;
            SelectCandidates(pool, p, states, q, now).candidates == if all == [] then [] else [all[0]]
  {
    var p' := p.(autoSwitch := true);
    assert forall r: Route :: RankOf(p, states)(r) == RankOf(p', states)(r);
    forall r ensures r in EligibleRoutes(pool, p, states, q) <==> r in EligibleRoutes(pool, p', states, q) {
      EligibleMember(pool, p, states, q, r);
      EligibleMember(pool, p', states, q, r);
    }
    EligibleRanked(pool, p, states, q);
    EligibleRanked(pool, p', states, q);
    assert Ranked(EligibleRoutes(pool, p', states, q), RankOf(p, states));
    RankedIsUnique(EligibleRoutes(pool, p, states, q), EligibleRoutes(pool, p', states, q), RankOf(p, states));
  }

  /** The order in which the pool lists its routes does not matter. */
  lemma PoolOrderIsIrrelevant(a: seq<Route>, b: seq<Route>, p: Policy, states: map<Id, RouteState>, q: Request, now: nat)
    requires DistinctRoutes(a) && DistinctRoutes(b) && forall r :: r in a <==> r in b
    ensures SelectCandidates(a, p, states, q, now) == SelectCandidates(b, p, states, q, now)
  {
    forall r ensures r in EligibleRoutes(a, p, states, q) <==> r in EligibleRoutes(b, p, states, q) {
      EligibleMember(a, p, states, q, r);
      EligibleMember(b, p, states, q, r);
    }
    EligibleRanked(a, p, states, q);
    EligibleRanked(b, p, states, q);
    RankedIsUnique(EligibleRoutes(a, p, states, q), EligibleRoutes(b, p, states, q), RankOf(p, states));
  }

  lemma {:induction false} EarliestIsLeast(s: seq<Route>, states: map<Id, RouteState>)
    requires s != []
    ensures exists r <- s :: BlockedUntil(states, r.routeId) == EarliestEnd(s, states)
    ensures forall r <- s :: EarliestEnd(s, states) <= BlockedUntil(states, r.routeId)
  {
    assert s[0] in s;
    if |s| > 1 {
      EarliestIsLeast(s[1..], states);
      assert s == [s[0]] + s[1..];
      var r :| r in s[1..] && BlockedUntil(states, r.routeId) == EarliestEnd(s[1..], states);
      assert r in s;
    }
  }

  /**
   * A retry time is given exactly when routes are eligible and all of them blocked, and it is the first later
   * instant at which the same request finds a candidate.
   */
  lemma RetryAtIsTheFirstChance(pool: seq<Route>, p: Policy, states: map<Id, RouteState>, q: Request, now: nat, later: nat)
    requires DistinctRoutes(pool) && later >= now
    ensures var s := SelectCandidates(pool, p, states, q, now);
            && (s.retryAt != 0 <==> s.candidates == [] && s.eligibleRouteIds != [])
            && (s.retryAt != 0 ==>
                  s.retryAt > now && (SelectCandidates(pool, p, states, q, later).candidates != [] <==> later >= s.retryAt))
  {
    var eligible := EligibleRoutes(pool, p, states, q);
    if eligible != [] {
      EarliestIsLeast(eligible, states);
      SomeAvailable(eligible, states, now);
      SomeAvailable(eligible, states, later);
    }
  }

  lemma SomeAvailable(eligible: seq<Route>, states: map<Id, RouteState>, now: nat)
    requires eligible != []
    ensures Where(eligible, (r: Route) => Available(states, now, r)) != [] <==> EarliestEnd(eligible, states) <= now
  {
    var keep := (r: Route) => Available(states, now, r);
    var t := Where(eligible, keep);
    EarliestIsLeast(eligible, states);
    if EarliestEnd(eligible, states) <= now {
      var r :| r in eligible && BlockedUntil(states, r.routeId) == EarliestEnd(eligible, states);
      WhereMember(eligible, keep, r);
    }
    if t != [] {
      WhereMember(eligible, keep, t[0]);
      assert t[0] in t;
    }
  }

  // ------------------------------------------- outcomes and the circuit

  datatype Outcome = Outcome(ok: bool, retryable: bool, at: nat, latencyMs: nat)

  function CheckedAdd(a: nat, b: nat): Result<nat, ()> {
    if a + b > MAX_SAFE_INTEGER then Err(()) else Ok(a + b)
  }

  function RecordOutcome(current: RouteState, p: Policy, o: Outcome): Result<RouteState, ()> {
    if o.ok then
      var successes :- CheckedAdd(current.successes, 1);
      Ok(RouteState(0, successes, current.failures, 0, 0, o.latencyMs))
    else
      var consecutive :- CheckedAdd(current.consecutiveFailures, 1);
      var total :- CheckedAdd(current.failures, 1);
      var backoffUntil :- if o.retryable then CheckedAdd(o.at, p.retryBackoffSeconds * 1000) else Ok(current.backoffUntil);
      var circuitOpenUntil :-
        if o.retryable && consecutive >= p.circuitBreakerFailures then CheckedAdd(o.at, p.circuitBreakerSeconds * 1000)
        else Ok(current.circuitOpenUntil);
      Ok(RouteState(consecutive, current.successes, total, backoffUntil, circuitOpenUntil, o.latencyMs))
  }

  const UNUSED: RouteState := RouteState(0, 0, 0, 0, 0, 0)

  /** The durable state of a route after all its outcomes, oldest first. */
  function StateAfter(p: Policy, history: seq<Outcome>): Result<RouteState, ()>
    decreases |history|
  {
    if history == [] then Ok(UNUSED)
    else
      var before :- StateAfter(p, history[..|history| - 1]);
      RecordOutcome(before, p, history[|history| - 1])
  }

  /** The last m outcomes are all failures. */
  ghost predicate FailedLast(history: seq<Outcome>, m: nat) {
    m <= |history| && forall i | |history| - m <= i < |history| :: !history[i].ok
  }

  lemma {:induction false} CountsTrailingFailures(p: Policy, history: seq<Outcome>, m: nat)
    requires StateAfter(p, history).Ok?
    ensures FailedLast(history, m) <==> m <= StateAfter(p, history).value.consecutiveFailures
    decreases |history|
  {
    if history != [] && m > 0 {
      var n := |history| - 1;
      var before := history[..n];
      CountsTrailingFailures(p, before, m - 1);
      if FailedLast(history, m) {
        forall i | |before| - (m - 1) <= i < |before| ensures !before[i].ok { assert !history[i].ok; }
        assert !history[n].ok;
      } else if !history[n].ok && FailedLast(before, m - 1) {
        forall i | |history| - m <= i < |history| ensures !history[i].ok { if i < n { assert !before[i].ok; } }
      }
    }
  }

  /**
   * After a retryable failure the route waits out the backoff, and the open circuit as well once the last
   * `circuitBreakerFailures` outcomes all failed; after a success it is available at once.
   */
  lemma FailuresBlock(p: Policy, history: seq<Outcome>, states: map<Id, RouteState>, r: Route, now: nat)
    requires history != [] && StateAfter(p, history).Ok?
    requires r.routeId in states && states[r.routeId] == StateAfter(p, history).value
    ensures var last := history[|history| - 1];
            && (last.ok ==> Available(states, now, r))
            && (!last.ok && last.retryable && Available(states, now, r) ==>
                  && now >= last.at + p.retryBackoffSeconds * 1000
                  && (FailedLast(history, p.circuitBreakerFailures) ==> now >= last.at + p.circuitBreakerSeconds * 1000))
  {
    CountsTrailingFailures(p, history, p.circuitBreakerFailures);
  }

  /** Outcomes never decide which routes are eligible, only when and in which order they are tried. */
  lemma OutcomesKeepEligibility(pool: seq<Route>, p: Policy, a: map<Id, RouteState>, b: map<Id, RouteState>, q: Request, r: Route)
    ensures r in EligibleRoutes(pool, p, a, q) <==> r in EligibleRoutes(pool, p, b, q)
  {
    EligibleMember(pool, p, a, q, r);
    EligibleMember(pool, p, b, q, r);
  }
}
