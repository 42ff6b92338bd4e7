/** What makes a route a candidate and what puts it ahead of another, and what its outcomes leave behind. */
module RouteChoice {
  import opened Common
  import opened RoutePool
  import Sorting

  // ------------------------------------------------------------ candidates

  /** Owner and request both accept the route: each restriction bars only where it is set. */
  predicate Accepted(r: Route, p: Policy, q: Request) {
    && r.enabled
    && (r.routeId in p.allow || p.allow == [])
    && !(r.routeId in p.deny)
    && (r.costClass.FREE? || (!p.freeOnly && r.costClass.PAID? && r.inputPriceKnown && r.outputPriceKnown))
    && (p.locality == None || p.locality == Some(r.locality))
    && (p.maxInputPrice == None || r.inputPrice <= p.maxInputPrice.value)
    && (p.maxOutputPrice == None || r.outputPrice <= p.maxOutputPrice.value)
    && (q.role in r.roles || r.roles == {})
    && (forall c <- q.capabilityIds :: c in r.capabilityIds)
    && (q.requiresVision ==> r.supportsVision)
    && (p.pinned == None || p.pinned == Some(r.routeId))
  }

  /** Neither backing off nor behind an open circuit. */
  predicate Free(states: map<Id, RouteState>, now: nat, r: Route) {
    r.routeId in states ==> states[r.routeId].backoffUntil <= now && states[r.routeId].circuitOpenUntil <= now
  }

  /** With switching on, the candidates are exactly the accepted and free routes of the pool. */
  lemma CandidateExactly(pool: seq<Route>, p: Policy, states: map<Id, RouteState>, q: Request, now: nat, r: Route)
    requires DistinctRoutes(pool) && p.autoSwitch
    ensures r in SelectCandidates(pool, p, states, q, now).candidates <==> r in pool && Accepted(r, p, q) && Free(states, now, r)
  {
    CandidatesAreExact(pool, p, states, q, now);
    hide SelectCandidates;
  }

  // --------------------------------------------------------------- ranking

  /** The owner lists a before b, or lists only a. */
  predicate ListedBefore(p: Policy, a: Id, b: Id) {
    exists i | 0 <= i < |p.ordered| :: p.ordered[i] == a && b !in p.ordered[..i + 1]
  }

  predicate Measured(states: map<Id, RouteState>, id: Id) { id in states && states[id].lastLatencyMs > 0 }

  /** A measured latency beats a longer one and one never measured. */
  predicate Faster(states: map<Id, RouteState>, a: Id, b: Id) {
    && Measured(states, a)
    && states[a].lastLatencyMs < (if Measured(states, b) then states[b].lastLatencyMs else MAX_SAFE_INTEGER)
  }

  /** The owner's order first, then the higher priority, the shorter latency, and the lesser id. */
  predicate Preferred(p: Policy, states: map<Id, RouteState>, a: Route, b: Route) {
    if ListedBefore(p, a.routeId, b.routeId) then true
    else if ListedBefore(p, b.routeId, a.routeId) then false
    else if a.priority != b.priority then a.priority > b.priority
    else if Faster(states, a.routeId, b.routeId) then true
    else if Faster(states, b.routeId, a.routeId) then false
    else Sorting.Less(a.routeId, b.routeId)
  }

  lemma {:induction false} PrefixMember(ids: seq<Id>, id: Id, n: nat)
    requires n <= |ids|
    ensures id in ids[..n] <==> IndexIn(ids, id) < n
  {
    if n > 0 && ids[0] != id {
      PrefixMember(ids[1..], id, n - 1);
      assert ids[..n] == [ids[0]] + ids[1..][..n - 1];
    }
  }

  lemma OrderMeans(p: Policy, a: Id, b: Id)
    requires |p.ordered| <= MAX_SAFE_INTEGER
    ensures OrderOf(p, a) < OrderOf(p, b) <==> ListedBefore(p, a, b)
  {
    var ids := p.ordered;
    forall n | 0 <= n <= |ids|
      ensures a in ids[..n] <==> IndexIn(ids, a) < n
      ensures b in ids[..n] <==> IndexIn(ids, b) < n
    {
      PrefixMember(ids, a, n);
      PrefixMember(ids, b, n);
    }
    forall i | 0 <= i < |ids| && ids[i] == a && b !in ids[..i + 1] ensures IndexIn(ids, a) < IndexIn(ids, b) {
      assert ids[..i + 1][i] == a;
    }
    if a in ids { assert ids[IndexIn(ids, a)] == a; }
  }

  /** The comparison of two routes is the owner's preference. */
  lemma RankMeans(p: Policy, states: map<Id, RouteState>, a: Route, b: Route)
    requires |p.ordered| <= MAX_SAFE_INTEGER
    requires forall id <- states :: states[id].lastLatencyMs <= MAX_SAFE_INTEGER
    ensures Ahead(RankOf(p, states)(a), RankOf(p, states)(b)) <==> Preferred(p, states, a, b)
  {
    OrderMeans(p, a.routeId, b.routeId);
    OrderMeans(p, b.routeId, a.routeId);
    hide OrderOf, ListedBefore;
  }

  /** Candidates come in order of preference. */
  lemma CandidatesByPreference(pool: seq<Route>, p: Policy, states: map<Id, RouteState>, q: Request, now: nat, i: nat, j: nat)
    requires DistinctRoutes(pool) && p.autoSwitch && |p.ordered| <= MAX_SAFE_INTEGER
    requires forall id <- states :: states[id].lastLatencyMs <= MAX_SAFE_INTEGER
    requires i < j < |SelectCandidates(pool, p, states, q, now).candidates|
    ensures var c := SelectCandidates(pool, p, states, q, now).candidates; Preferred(p, states, c[i], c[j])
  {
    CandidatesAreExact(pool, p, states, q, now);
    hide SelectCandidates, Preferred, Ahead, RankOf;
    var c := SelectCandidates(pool, p, states, q, now).candidates;
    RankMeans(p, states, c[i], c[j]);
  }

  // --------------------------------------------------------------- outcomes

  function Successes(history: seq<Outcome>): nat
    decreases |history|
  {
    if history == [] then 0 else Successes(history[..|history| - 1]) + if history[|history| - 1].ok then 1 else 0
  }

  /** The counters count, and the latency is the last one measured. */
  lemma {:induction false} CountersCount(p: Policy, history: seq<Outcome>)
    requires StateAfter(p, history).Ok?
    ensures var st := StateAfter(p, history).value;
            && st.successes == Successes(history) && st.successes + st.failures == |history|
            && (history != [] ==> st.lastLatencyMs == history[|history| - 1].latencyMs)
    decreases |history|
  {
    if history != [] { CountersCount(p, history[..|history| - 1]); }
  }

  /** From when on a route that so ended is available again. */
  ghost predicate FreeFrom(before: RouteState, p: Policy, history: seq<Outcome>, now: nat)
    requires history != []
  {
    var last := history[|history| - 1];
    if last.ok then true
    else if !last.retryable then before.backoffUntil <= now && before.circuitOpenUntil <= now
    else
      && last.at + p.retryBackoffSeconds * 1000 <= now
      && (if FailedLast(history, p.circuitBreakerFailures) then last.at + p.circuitBreakerSeconds * 1000 <= now
          else before.circuitOpenUntil <= now)
  }

  /**
   * After each outcome: a success frees the route, a failure not worth a retry changes nothing about its blocks, and any
   * other makes it wait out the backoff and, once enough outcomes in a row failed, the open circuit; no longer.
   */
  lemma BlockedExactly(p: Policy, history: seq<Outcome>, now: nat)
    requires history != [] && StateAfter(p, history).Ok?
    ensures var (before, st) := (StateAfter(p, history[..|history| - 1]), StateAfter(p, history).value);
            && before.Ok?
            && (st.backoffUntil <= now && st.circuitOpenUntil <= now <==> FreeFrom(before.value, p, history, now))
  {
    CountsTrailingFailures(p, history, p.circuitBreakerFailures);
    hide FailedLast;
  }
}
