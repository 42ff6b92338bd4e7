/** Where the calls of a run go, and when it moves on to the next route: `call` in src/core/ai-orchestrator.js. */
module OrchestratorRoutes {
  import opened Common
  import opened Orchestrator
  import opened OrchestratorFailures
  import RP = RoutePool
  import RC = RouteChoice

  // --------------------------------------------------------------- failover

  function BeforeCall(q: Request, w: World, st: State, route: RouteIdentity): seq<Event> {
    if q.context.None? then st.trace
    else
      match w.admit(st.trace)
      case Refused(_) => st.trace
      case Granted(receipt) => st.trace + [Admitted(st.callsUsed + 1, route, receipt)]
  }

  /** The gateway was reached, failed in a way worth a retry, and with a budget the failure was settled. */
  predicate FailsForRetry(q: Request, w: World, st: State, route: RouteIdentity) {
    && Reaches(q, w, st, route)
    && w.complete(BeforeCall(q, w, st, route)) == Failed(PLAIN, true)
    && (q.context.Some? ==> w.settle(BeforeCall(q, w, st, route) + [Called(route, false)]).Accepted?)
  }

  /** The gateway was reached, answered, and with a budget the answer was settled. */
  predicate Answers(q: Request, w: World, st: State, route: RouteIdentity) {
    && Reaches(q, w, st, route)
    && w.complete(BeforeCall(q, w, st, route)).Completed?
    && (q.context.Some? ==> w.settle(BeforeCall(q, w, st, route) + [Called(route, true)]).Accepted?)
  }

  lemma InvokeExactly(q: Request, w: World, st: State, route: RouteIdentity)
    ensures var r := Invoke(q, w, st, route).0;
            && (r.Ok? <==> Answers(q, w, st, route))
            && (r.Ok? ==> w.complete(BeforeCall(q, w, st, route)) == Completed(r.value))
            && (r.Err? && !r.error.recorded && r.error.retryable <==> FailsForRetry(q, w, st, route))
  {
    hide Bound;
    assert Reaches(q, w, st, route) ==>
      Invoke(q, w, st, route) == CallGateway(q, w, st.(trace := BeforeCall(q, w, st, route)), route);
  }

  /** The outcome of an attempt as it is recorded for its route. */
  function Recording(s: Settings, w: World, after: State, route: RP.Route, ok: bool, retryable: bool): Result<RP.RouteState, ()> {
    RP.RecordOutcome(StateOf(after, route.routeId), s.policy,
                     RP.Outcome(ok, retryable, w.clock(after.trace), w.latency(after.trace)))
  }

  /**
   * A failed attempt leads on to the next route exactly when the provider failed in a way worth a retry, the owner lets
   * routes be switched, and the failure can be recorded. An attempt that answers ends the call with that answer, once it
   * can be recorded; what is recorded is its own outcome, for its own route only.
   */
  lemma FailoverExactly(s: Settings, q: Request, w: World, st: State, route: RP.Route)
    ensures var after := Invoke(q, w, st, s.identity(route)).1; var next := TryRoute(s, q, w, st, route);
            && (next.GoOn? <==> FailsForRetry(q, w, st, s.identity(route)) && s.policy.autoSwitch
                                && Recording(s, w, after, route, false, true).Ok?)
            && (next.GoOn? ==>
                  next.st == after.(routeStates := after.routeStates[route.routeId := Recording(s, w, after, route, false, true).value]))
            && (next.Stop? && next.outcome.Ok? <==>
                  Answers(q, w, st, s.identity(route)) && Recording(s, w, after, route, true, false).Ok?)
            && (next.Stop? && next.outcome.Ok? ==>
                  && w.complete(BeforeCall(q, w, st, s.identity(route))) == Completed(next.outcome.value)
                  && next.st == after.(routeStates := after.routeStates[route.routeId := Recording(s, w, after, route, true, false).value]))
  {
    InvokeExactly(q, w, st, s.identity(route));
    hide Invoke, FailsForRetry, Answers, RP.RecordOutcome;
  }

  /** The gateway was reached and threw this, and with a budget the failure was settled. */
  predicate ProviderThrows(q: Request, w: World, st: State, route: RouteIdentity, kind: Kind, retryable: bool) {
    && Reaches(q, w, st, route)
    && w.complete(BeforeCall(q, w, st, route)) == Failed(kind, retryable)
    && (q.context.Some? ==> w.settle(BeforeCall(q, w, st, route) + [Called(route, false)]).Accepted?)
  }

  lemma InvokeThrows(q: Request, w: World, st: State, route: RouteIdentity, kind: Kind, retryable: bool)
    requires ProviderThrows(q, w, st, route, kind, retryable)
    ensures Invoke(q, w, st, route).0 == Err(Attach(kind, false, retryable))
  {
    hide Bound;
    assert Invoke(q, w, st, route) == CallGateway(q, w, st.(trace := BeforeCall(q, w, st, route)), route);
  }

  /**
   * When an attempt of a route pool stops the call with the provider's failure, the strong model may still take over
   * exactly if the failure was worth a retry, or could not be marked: it was no object, took no new properties with the
   * route's counters full, or could not be recorded.
   */
  lemma StoppedForGood(s: Settings, q: Request, w: World, st: State, route: RP.Route, kind: Kind, retryable: bool)
    requires ProviderThrows(q, w, st, s.identity(route), kind, retryable) && TryRoute(s, q, w, st, route).Stop?
    ensures var after := Invoke(q, w, st, s.identity(route)).1; var next := TryRoute(s, q, w, st, route);
            && next.outcome.Err?
            && (FallsThrough(next.outcome.error) <==>
                  kind.PRIMITIVE? || (kind.PLAIN? && retryable) || Recording(s, w, after, route, false, kind.PLAIN? && retryable).Err?)
  {
    InvokeThrows(q, w, st, s.identity(route), kind, retryable);
    hide Invoke, ProviderThrows, RP.RecordOutcome;
  }

  // ------------------------------------------------------------- receipts

  /** What the browser agent's lifecycle must hand out for one call: its own job, epoch, number and route, for one call. */
  predicate ReceiptFor(receipt: Receipt, jobId: Text, epoch: nat, number: nat, route: RouteIdentity) {
    && jobId != [] && |receipt.reservationId| >= |jobId| + |BUDGET_MARK|
    && receipt.reservationId[..|jobId|] == jobId && receipt.reservationId[|jobId|..|jobId| + |BUDGET_MARK|] == BUDGET_MARK
    && receipt.controlEpoch == Some(epoch) && receipt.callNumber == Some(number)
    && receipt.route == route && receipt.modelCalls == Some(1)
  }

  lemma BoundMeans(receipt: Receipt, c: Context, route: RouteIdentity, number: nat)
    ensures Bound(receipt, c, route, number) <==> (c.BrowserAgent? ==> ReceiptFor(receipt, c.jobId, c.controlEpoch, number, route))
  {
    if c.BrowserAgent? {
      var r := receipt.reservationId;
      var prefix := c.jobId + BUDGET_MARK;
      if prefix <= r {
        assert r[..|c.jobId|] == prefix[..|c.jobId|] == c.jobId;
        assert r[|c.jobId|..|prefix|] == prefix[|c.jobId|..] == BUDGET_MARK;
      }
      if |r| >= |prefix| && r[..|c.jobId|] == c.jobId && r[|c.jobId|..|prefix|] == BUDGET_MARK {
        assert r[..|prefix|] == r[..|c.jobId|] + r[|c.jobId|..|prefix|] == prefix;
      }
    }
  }

  /**
   * One attempt adds a gateway call exactly if the ceiling has room, and with a budget there is a lifecycle that grants
   * the reservation, the browser agent's with a receipt for this very call.
   */
  lemma CalledExactly(q: Request, w: World, st: State, route: RouteIdentity)
    ensures NewCall(st.trace, Invoke(q, w, st, route).1.trace) <==>
              && (q.callCeiling == 0 || st.callsUsed < q.callCeiling)
              && (q.context.Some? ==>
                    q.lifecycle &&
                    match w.admit(st.trace)
                    case Refused(_) => false
                    case Granted(receipt) =>
                      match q.context.value
                      case OtherContext => true
                      case BrowserAgent(jobId, epoch) => ReceiptFor(receipt, jobId, epoch, st.callsUsed + 1, route))
  {
    InvokeReaches(q, w, st, route);
    if q.context.Some? && w.admit(st.trace).Granted? {
      BoundMeans(w.admit(st.trace).receipt, q.context.value, route, st.callsUsed + 1);
    }
    hide Invoke, Bound, NewCall, ReceiptFor;
  }

  // ---------------------------------------------------- where calls may go

  /** A call made for this role goes where the settings allow. */
  ghost predicate AllowedFor(s: Settings, q: Request, role: RP.Role, slot: RouteIdentity, to: RouteIdentity) {
    if s.routes == [] then to == slot && slot.model != []
    else exists r <- s.routes :: to == s.identity(r) && RC.Accepted(r, s.policy, RP.Request(role, q.capabilityIds, q.requiresVision))
  }

  ghost predicate CallsAllowed(s: Settings, q: Request, role: RP.Role, slot: RouteIdentity, t: seq<Event>, u: seq<Event>) {
    && t <= u
    && forall i | |t| <= i < |u| && u[i].Called? :: AllowedFor(s, q, role, slot, u[i].route)
  }

  lemma InvokeCallsOnly(q: Request, w: World, st: State, route: RouteIdentity)
    ensures var after := Invoke(q, w, st, route).1;
            st.trace <= after.trace && forall i | |st.trace| <= i < |after.trace| && after.trace[i].Called? :: after.trace[i].route == route
  {
    hide Bound;
  }

  lemma TryRouteCallsOnly(s: Settings, q: Request, w: World, st: State, route: RP.Route)
    ensures var after := TryRoute(s, q, w, st, route).st; var to := s.identity(route);
            st.trace <= after.trace && forall i | |st.trace| <= i < |after.trace| && after.trace[i].Called? :: after.trace[i].route == to
  {
    InvokeCallsOnly(q, w, st, s.identity(route));
    hide Invoke, RP.RecordOutcome;
  }

  ghost predicate AllAccepted(s: Settings, q: Request, role: RP.Role, candidates: seq<RP.Route>) {
    forall r <- candidates :: r in s.routes && RC.Accepted(r, s.policy, RP.Request(role, q.capabilityIds, q.requiresVision))
  }

  lemma {:induction false} TryRoutesCallsAllowed(s: Settings, q: Request, w: World, st: State, candidates: seq<RP.Route>, role: RP.Role)
    requires s.routes != [] && AllAccepted(s, q, role, candidates)
    ensures CallsAllowed(s, q, role, s.primary, st.trace, TryRoutes(s, q, w, st, candidates).1.trace)
    decreases |candidates|
  {
    hide TryRoute, RC.Accepted;
    if candidates != [] {
      assert candidates[0] in candidates;
      TryRouteCallsOnly(s, q, w, st, candidates[0]);
      var next := TryRoute(s, q, w, st, candidates[0]);
      if next.GoOn? { TryRoutesCallsAllowed(s, q, w, next.st, candidates[1..], role); }
    }
  }

  lemma SwitchOffStillAccepted(pool: seq<RP.Route>, p: RP.Policy, states: map<Id, RP.RouteState>, q: RP.Request, now: nat)
    requires RP.DistinctRoutes(pool)
    ensures forall r <- RP.SelectCandidates(pool, p, states, q, now).candidates :: r in pool && RC.Accepted(r, p, q)
  {
    var p' := p.(autoSwitch := true);
    forall r | r in RP.SelectCandidates(pool, p, states, q, now).candidates ensures r in pool && RC.Accepted(r, p, q) {
      if !p.autoSwitch { RP.SingleCandidateIsBest(pool, p, states, q, now); }
      assert r in RP.SelectCandidates(pool, p', states, q, now).candidates;
      RC.CandidateExactly(pool, p', states, q, now, r);
    }
  }

  lemma CallGoesWhereAllowed(s: Settings, q: Request, w: World, st: State, slot: RouteIdentity, role: RP.Role)
    requires RP.DistinctRoutes(s.routes)
    ensures CallsAllowed(s, q, role, slot, st.trace, Call(s, q, w, st, slot, role).1.trace)
  {
    hide RC.Accepted, RP.SelectCandidates, TryRoutes, Invoke;
    if s.routes != [] {
      SwitchOffStillAccepted(s.routes, s.policy, st.routeStates, RP.Request(role, q.capabilityIds, q.requiresVision), q.now);
      TryRoutesCallsAllowed(s, q, w, st, Candidates(s, q, st, role), role);
    } else if slot.model != [] {
      InvokeCallsOnly(q, w, st, slot);
    }
  }

  /**
   * Every gateway call of every run goes to a configured slot, or with a route pool to a route of it that the policy and
   * the request accept, for the role of the primary or of the strong model.
   */
  lemma RunGoesWhereAllowed(s: Settings, q: Request, w: World, states: map<Id, RP.RouteState>, i: nat)
    requires RP.DistinctRoutes(s.routes)
    requires i < |Run(s, q, w, Started(states)).1.trace| && Run(s, q, w, Started(states)).1.trace[i].Called?
    ensures var to := Run(s, q, w, Started(states)).1.trace[i].route;
            AllowedFor(s, q, q.role, s.primary, to) || AllowedFor(s, q, q.strongRole, s.strong, to)
  {
    hide Call, AllowedFor, GuardAllows, WantsStrong;
    var st := Started(states);
    CallGoesWhereAllowed(s, q, w, st, s.primary, q.role);
    CallGoesWhereAllowed(s, q, w, st, s.strong, q.strongRole);
    var after := Call(s, q, w, st, s.primary, q.role).1;
    CallGoesWhereAllowed(s, q, w, after, s.strong, q.strongRole);
  }
}
