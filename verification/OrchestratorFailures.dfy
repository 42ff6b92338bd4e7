/**
 * When a gateway call follows a refused reservation or a failed settlement: src/core/ai-orchestrator.js remembers
 * such a failure by the identity of the thrown object, and not every value thrown can be remembered.
 */
module OrchestratorFailures {
  import opened Common
  import opened Orchestrator
  import RP = RoutePool
  import SL = StrongLimiter

  /** A lifecycle that did not do its part. */
  predicate Failure(e: Event) { e.NotAdmitted? || e.NotSettled? }

  predicate Quiet(t: seq<Event>) { forall i | 0 <= i < |t| :: !Failure(t[i]) }

  predicate QuietUntilLast(t: seq<Event>) { forall i | 0 <= i < |t| - 1 :: !Failure(t[i]) }

  predicate EndsInFailure(t: seq<Event>) { t != [] && Failure(t[|t| - 1]) }

  ghost predicate CallAfterFailure(t: seq<Event>) {
    exists i, j :: 0 <= i < j < |t| && Failure(t[i]) && t[j].Called?
  }

  /** What the run looks at before it lets the strong model take over from a failed primary. */
  predicate FallsThrough(thrown: Thrown) { !thrown.recorded && thrown.classified != Some(false) }

  predicate CountersFit(st: State, id: Id) {
    StateOf(st, id).consecutiveFailures < MAX_SAFE_INTEGER && StateOf(st, id).failures < MAX_SAFE_INTEGER
  }

  /** The attempt that ended a failover: its route, and the state before its outcome was recorded. */
  function LastTried(s: Settings, q: Request, w: World, st: State, candidates: seq<RP.Route>): Option<(RP.Route, State)>
    decreases |candidates|
  {
    if candidates == [] then None
    else
      match TryRoute(s, q, w, st, candidates[0])
      case Stop(_, _) => Some((candidates[0], Invoke(q, w, st, s.identity(candidates[0])).1))
      case GoOn(st') => LastTried(s, q, w, st', candidates[1..])
  }

  predicate CountersFull(tried: Option<(RP.Route, State)>) {
    tried.Some? && !CountersFit(tried.value.1, tried.value.0.routeId)
  }

  /**
   * The failure is taken for the provider's: what was thrown is no object, or it takes no new properties and no
   * route is marked for it, there being no route pool or the failing route's counters being full.
   */
  predicate Forgotten(s: Settings, tried: Option<(RP.Route, State)>, kind: Kind) {
    kind.PRIMITIVE? || (kind.LOCKED? && (s.routes == [] || CountersFull(tried)))
  }

  /** An attempt gets as far as the gateway. */
  predicate Reaches(q: Request, w: World, st: State, route: RouteIdentity) {
    && (q.callCeiling > 0 ==> st.callsUsed < q.callCeiling)
    && (q.context.Some? ==>
          && q.lifecycle && w.admit(st.trace).Granted?
          && Bound(w.admit(st.trace).receipt, q.context.value, route, st.callsUsed + 1))
  }

  /** The first attempt of the strong model gets as far as the gateway. */
  predicate StrongReaches(s: Settings, q: Request, w: World, st: State) {
    if s.routes == [] then s.strong.model != [] && Reaches(q, w, st, s.strong)
    else
      var candidates := Candidates(s, q, st, q.strongRole);
      candidates != [] && Reaches(q, w, st, s.identity(candidates[0]))
  }

  // ------------------------------------------------- how one attempt ends

  /** Either nothing failed, or the call ended with the failure, taken for the provider's exactly when `forgotten` says so. */
  ghost predicate Ends(st: State, outcome: Outcome, after: State, tried: Option<(RP.Route, State)>, s: Settings) {
    && st.trace <= after.trace && QuietUntilLast(after.trace)
    && (EndsInFailure(after.trace) ==>
          outcome.Err? && (FallsThrough(outcome.error) <==> Forgotten(s, tried, after.trace[|after.trace| - 1].kind)))
  }

  lemma QuietThenEnds(t: seq<Event>, e: Event)
    requires Quiet(t)
    ensures QuietUntilLast(t + [e]) && (!Failure(e) ==> Quiet(t + [e])) && (EndsInFailure(t + [e]) <==> Failure(e))
    ensures t <= t + [e]
  {
  }

  lemma QuietExactly(t: seq<Event>)
    requires QuietUntilLast(t)
    ensures Quiet(t) <==> !EndsInFailure(t)
  {
  }

  lemma GatewayEnds(q: Request, w: World, st: State, route: RouteIdentity)
    requires Quiet(st.trace)
    ensures var (r, after) := CallGateway(q, w, st, route);
            && st.trace <= after.trace && |st.trace| < |after.trace| && after.trace[|st.trace|].Called?
            && after.routeStates == st.routeStates && QuietUntilLast(after.trace)
            && (EndsInFailure(after.trace) ==> r == Err(Attach(after.trace[|after.trace| - 1].kind, true, false)))
  {
    var b := Called(route, w.complete(st.trace).Completed?);
    QuietThenEnds(st.trace, b);
    if q.context.Some? {
      var t := st.trace + [b];
      match w.settle(t)
      case Accepted => QuietThenEnds(t, Settled(st.callsUsed + 1, route, b.ok));
      case NotAccepted(kind) => QuietThenEnds(t, NotSettled(st.callsUsed + 1, route, b.ok, kind));
    }
  }

  lemma InvokeEnds(q: Request, w: World, st: State, route: RouteIdentity)
    requires Quiet(st.trace)
    ensures var (r, after) := Invoke(q, w, st, route);
            && st.trace <= after.trace && after.routeStates == st.routeStates && QuietUntilLast(after.trace)
            && (EndsInFailure(after.trace) ==> r == Err(Attach(after.trace[|after.trace| - 1].kind, true, false)))
  {
    hide CallGateway, Bound;
    if q.callCeiling > 0 && st.callsUsed >= q.callCeiling {
    } else if q.context.None? {
      GatewayEnds(q, w, st, route);
    } else if q.lifecycle {
      var number := st.callsUsed + 1;
      match w.admit(st.trace)
      case Refused(kind) => QuietThenEnds(st.trace, NotAdmitted(number, route, kind));
      case Granted(receipt) =>
        if Bound(receipt, q.context.value, route, number) {
          QuietThenEnds(st.trace, Admitted(number, route, receipt));
          GatewayEnds(q, w, st.(trace := st.trace + [Admitted(number, route, receipt)]), route);
        } else {
          QuietThenEnds(st.trace, NotAdmitted(number, route, PLAIN));
        }
    }
  }

  /** With a route pool, a failure in the lifecycle ends the failover. */
  lemma AfterFailureEnds(s: Settings, w: World, st: State, route: RP.Route, kind: Kind)
    requires s.routes != []
    ensures var next := AfterFailure(s, w, st, route, Attach(kind, true, false));
            && next.Stop? && next.outcome.Err?
            && (FallsThrough(next.outcome.error) <==> Forgotten(s, Some((route, st)), kind))
  {
  }

  lemma TryRouteEnds(s: Settings, q: Request, w: World, st: State, route: RP.Route)
    requires s.routes != [] && Quiet(st.trace)
    ensures var next := TryRoute(s, q, w, st, route);
            && (next.GoOn? ==> st.trace <= next.st.trace && Quiet(next.st.trace))
            && (next.Stop? ==> Ends(st, next.outcome, next.st, Some((route, Invoke(q, w, st, s.identity(route)).1)), s))
  {
    InvokeEnds(q, w, st, s.identity(route));
    var (outcome, after) := Invoke(q, w, st, s.identity(route));
    hide Invoke, Forgotten, FallsThrough;
    if EndsInFailure(after.trace) {
      AfterFailureEnds(s, w, after, route, after.trace[|after.trace| - 1].kind);
    } else {
      QuietExactly(after.trace);
    }
  }

  lemma {:induction false} TryRoutesEnds(s: Settings, q: Request, w: World, st: State, candidates: seq<RP.Route>)
    requires s.routes != [] && Quiet(st.trace)
    ensures var (r, after) := TryRoutes(s, q, w, st, candidates);
            Ends(st, r, after, LastTried(s, q, w, st, candidates), s)
    decreases |candidates|
  {
    hide TryRoute, Invoke, Forgotten, FallsThrough;
    if candidates != [] {
      TryRouteEnds(s, q, w, st, candidates[0]);
      var next := TryRoute(s, q, w, st, candidates[0]);
      if next.GoOn? { TryRoutesEnds(s, q, w, next.st, candidates[1..]); }
    }
  }

  function Tried(s: Settings, q: Request, w: World, st: State, role: RP.Role): Option<(RP.Route, State)> {
    LastTried(s, q, w, st, Candidates(s, q, st, role))
  }

  /** A call that began without a failure has at most one, as its last event. */
  lemma CallEnds(s: Settings, q: Request, w: World, st: State, slot: RouteIdentity, role: RP.Role)
    requires Quiet(st.trace)
    ensures var (r, after) := Call(s, q, w, st, slot, role); Ends(st, r, after, Tried(s, q, w, st, role), s)
  {
    hide Candidates, Invoke, TryRoutes, LastTried;
    if s.routes != [] {
      TryRoutesEnds(s, q, w, st, Candidates(s, q, st, role));
    } else if slot.model != [] {
      InvokeEnds(q, w, st, slot);
      var (r, after) := Invoke(q, w, st, slot);
      if EndsInFailure(after.trace) { AttachedBare(s, after.trace[|after.trace| - 1].kind, Tried(s, q, w, st, role)); }
    }
  }

  lemma AttachedBare(s: Settings, kind: Kind, tried: Option<(RP.Route, State)>)
    requires s.routes == []
    ensures FallsThrough(Attach(kind, true, false)) <==> Forgotten(s, tried, kind)
  {
  }

  // ----------------------------------------- whether the gateway is reached

  ghost predicate NewCall(t: seq<Event>, u: seq<Event>) {
    t <= u && exists j :: |t| <= j < |u| && u[j].Called?
  }

  lemma NewCallStays(t: seq<Event>, u: seq<Event>, v: seq<Event>)
    requires NewCall(t, u) && u <= v
    ensures NewCall(t, v)
  {
    var j :| |t| <= j < |u| && u[j].Called?;
    assert v[j] == u[j];
  }

  lemma GatewayCalls(q: Request, w: World, st: State, route: RouteIdentity)
    ensures var after := CallGateway(q, w, st, route).1;
            st.trace <= after.trace && |st.trace| < |after.trace| && after.trace[|st.trace|].Called?
  {
  }

  /** An attempt that does not reach the gateway stops with an error nobody retries. */
  lemma InvokeReaches(q: Request, w: World, st: State, route: RouteIdentity)
    ensures var (r, after) := Invoke(q, w, st, route);
            && st.trace <= after.trace && (NewCall(st.trace, after.trace) <==> Reaches(q, w, st, route))
            && (!Reaches(q, w, st, route) ==> r.Err? && (r.error.recorded || !r.error.retryable))
  {
    hide CallGateway, Bound;
    var after := Invoke(q, w, st, route).1;
    if Reaches(q, w, st, route) {
      if q.context.None? {
        GatewayCalls(q, w, st, route);
        assert after.trace[|st.trace|].Called?;
      } else {
        var a := Admitted(st.callsUsed + 1, route, w.admit(st.trace).receipt);
        GatewayCalls(q, w, st.(trace := st.trace + [a]), route);
        assert after.trace[|st.trace| + 1].Called?;
      }
    }
  }

  lemma TryRouteReaches(s: Settings, q: Request, w: World, st: State, route: RP.Route)
    ensures var next := TryRoute(s, q, w, st, route); var reaches := Reaches(q, w, st, s.identity(route));
            && st.trace <= next.st.trace && (NewCall(st.trace, next.st.trace) <==> reaches) && (!reaches ==> next.Stop?)
  {
    InvokeReaches(q, w, st, s.identity(route));
    hide Invoke, Reaches;
  }

  lemma {:induction false} TryRoutesExtends(s: Settings, q: Request, w: World, st: State, candidates: seq<RP.Route>)
    ensures st.trace <= TryRoutes(s, q, w, st, candidates).1.trace
    decreases |candidates|
  {
    hide TryRoute;
    if candidates != [] {
      TryRouteReaches(s, q, w, st, candidates[0]);
      var next := TryRoute(s, q, w, st, candidates[0]);
      if next.GoOn? { TryRoutesExtends(s, q, w, next.st, candidates[1..]); }
    }
  }

  /** Later candidates are tried only after a gateway call, so the first one decides. */
  lemma StrongCalls(s: Settings, q: Request, w: World, st: State)
    ensures var after := Call(s, q, w, st, s.strong, q.strongRole).1;
            st.trace <= after.trace && (NewCall(st.trace, after.trace) <==> StrongReaches(s, q, w, st))
  {
    hide Candidates, TryRoute, Invoke, Reaches;
    if s.routes == [] {
      InvokeReaches(q, w, st, s.strong);
    } else {
      var candidates := Candidates(s, q, st, q.strongRole);
      if candidates != [] {
        TryRouteReaches(s, q, w, st, candidates[0]);
        var next := TryRoute(s, q, w, st, candidates[0]);
        if next.GoOn? {
          TryRoutesExtends(s, q, w, next.st, candidates[1..]);
          NewCallStays(st.trace, next.st.trace, TryRoutes(s, q, w, next.st, candidates[1..]).1.trace);
        }
      }
    }
  }

  // ------------------------------------------------------- the exact condition

  /**
   * Every condition under which the strong model takes over from a primary call that ended with a lifecycle
   * failure, and gets as far as the gateway.
   */
  predicate TakesOver(s: Settings, q: Request, w: World, states: map<Id, RP.RouteState>) {
    var first := Call(s, q, w, Started(states), s.primary, q.role).1;
    && !Manual(s, q)
    && EndsInFailure(first.trace)
    && Forgotten(s, Tried(s, q, w, Started(states), q.role), first.trace[|first.trace| - 1].kind)
    && s.fallbackToStrong && (s.routes != [] || s.strong.model != []) && GuardAllows(s, q)
    && StrongReaches(s, q, w, first)
  }

  lemma QuietHasNoCallAfterFailure(t: seq<Event>)
    requires QuietUntilLast(t)
    ensures !CallAfterFailure(t)
  {
  }

  lemma LastFailureIsFollowed(t: seq<Event>, u: seq<Event>)
    requires QuietUntilLast(t) && EndsInFailure(t) && t <= u
    ensures CallAfterFailure(u) <==> NewCall(t, u)
  {
    assert forall k | 0 <= k < |t| :: u[k] == t[k];
    assert Failure(u[|t| - 1]);
  }

  lemma FallBackCalls(s: Settings, q: Request, w: World, st: State, thrown: Thrown)
    requires QuietUntilLast(st.trace) && EndsInFailure(st.trace)
    ensures CallAfterFailure(FallBack(s, q, w, st, thrown).1.trace) <==>
              && FallsThrough(thrown) && s.fallbackToStrong && (s.routes != [] || s.strong.model != [])
              && GuardAllows(s, q) && StrongReaches(s, q, w, st)
  {
    hide Call, GuardAllows, StrongReaches, Failure;
    StrongCalls(s, q, w, st);
    LastFailureIsFollowed(st.trace, Call(s, q, w, st, s.strong, q.strongRole).1.trace);
    QuietHasNoCallAfterFailure(st.trace);
  }

  lemma QuietCallStrong(s: Settings, q: Request, w: World, st: State, spent: nat)
    requires Quiet(st.trace)
    ensures QuietUntilLast(CallStrong(s, q, w, st, spent).1.trace)
  {
    hide Call;
    CallEnds(s, q, w, st, s.strong, q.strongRole);
  }

  /**
   * In every run a gateway call follows a refused reservation or a failed settlement exactly when the primary call
   * ended with one that is taken for the provider's, and the strong model then takes over and reaches the gateway.
   */
  lemma CallAfterFailureExactly(s: Settings, q: Request, w: World, states: map<Id, RP.RouteState>)
    ensures CallAfterFailure(Run(s, q, w, Started(states)).1.trace) <==> TakesOver(s, q, w, states)
  {
    var st := Started(states);
    assert Quiet(st.trace);
    hide Call, CallStrong, FallBack, Tried, GuardAllows, StrongReaches, Forgotten, FallsThrough, Failure;
    if Manual(s, q) {
      CallEnds(s, q, w, st, s.strong, q.strongRole);
      QuietHasNoCallAfterFailure(Run(s, q, w, st).1.trace);
    } else {
      CallEnds(s, q, w, st, s.primary, q.role);
      var (outcome, after) := Call(s, q, w, st, s.primary, q.role);
      if EndsInFailure(after.trace) {
        FallBackCalls(s, q, w, after, outcome.error);
      } else {
        QuietExactly(after.trace);
        QuietRunEnds(s, q, w, after, outcome);
      }
    }
  }

  lemma QuietRunEnds(s: Settings, q: Request, w: World, st: State, outcome: Outcome)
    requires Quiet(st.trace)
    ensures outcome.Err? ==> !CallAfterFailure(FallBack(s, q, w, st, outcome.error).1.trace)
    ensures outcome.Ok? ==> !CallAfterFailure(Escalate(s, q, w, st, outcome.value).1.trace)
  {
    hide CallStrong, GuardAllows, Failure;
    QuietHasNoCallAfterFailure(st.trace);
    var spent := if outcome.Ok? then outcome.value.outputTokens else 0;
    QuietCallStrong(s, q, w, st, spent);
    QuietHasNoCallAfterFailure(CallStrong(s, q, w, st, spent).1.trace);
  }

  /** With a lifecycle that throws ordinary objects only, no gateway call follows a refused reservation or settlement. */
  lemma NoCallAfterLifecycleFailure(s: Settings, q: Request, w: World, states: map<Id, RP.RouteState>)
    requires forall e <- Run(s, q, w, Started(states)).1.trace :: Failure(e) ==> e.kind.PLAIN?
    ensures !CallAfterFailure(Run(s, q, w, Started(states)).1.trace)
  {
    CallAfterFailureExactly(s, q, w, states);
    if !Manual(s, q) {
      PrimaryComesFirst(s, q, w, states);
      hide Run, Call;
      var t := Run(s, q, w, Started(states)).1.trace;
      var first := Call(s, q, w, Started(states), s.primary, q.role).1.trace;
      assert forall k | 0 <= k < |first| :: first[k] == t[k] && t[k] in t;
    }
  }

  lemma PrimaryComesFirst(s: Settings, q: Request, w: World, states: map<Id, RP.RouteState>)
    requires !Manual(s, q)
    ensures Call(s, q, w, Started(states), s.primary, q.role).1.trace <= Run(s, q, w, Started(states)).1.trace
  {
    hide Call;
    StrongCalls(s, q, w, Call(s, q, w, Started(states), s.primary, q.role).1);
  }

  // ------------------------------------------------------------- an example

  const PRIMARY: RouteIdentity := RouteIdentity([], [112], [112])
  const STRONG: RouteIdentity := RouteIdentity([], [115], [115])

  function LegacySettings(): Settings {
    Settings(PRIMARY_ONLY, PRIMARY, STRONG, [], (r: RP.Route) => PRIMARY,
             RP.Policy(true, None, [], [], [], false, None, None, None, 60, 2, 300), SL.Limits(0, 0, 10, 120), true, true)
  }

  function BudgetedRequest(): Request {
    Request(1, SL.FRESH, false, 0, 0, RP.PLANNER, RP.VERIFIER, {}, false, Some(OtherContext), true)
  }

  const RECEIPT: Receipt := Receipt([114], None, None, STRONG, None)

  /** Refuses the first reservation with a bare value, then goes along with everything. */
  function BareRefusal(): World {
    World((t: seq<Event>) => if t == [] then Refused(PRIMITIVE) else Granted(RECEIPT),
          (t: seq<Event>) => Completed(Value(1, false)), (t: seq<Event>) => Accepted, (t: seq<Event>) => 1, (t: seq<Event>) => 0)
  }

  /** The exception is real: a reservation refused with a bare value is followed by a call to the strong model. */
  lemma BareRefusalIsFollowedByACall()
    ensures Run(LegacySettings(), BudgetedRequest(), BareRefusal(), Started(map[])).1.trace
            == [NotAdmitted(1, PRIMARY, PRIMITIVE), Admitted(1, STRONG, RECEIPT), Called(STRONG, true), Settled(1, STRONG, true)]
  {
    var s, q, w := LegacySettings(), BudgetedRequest(), BareRefusal();
    var refused := NotAdmitted(1, PRIMARY, PRIMITIVE);
    var first := Call(s, q, w, Started(map[]), PRIMARY, RP.PLANNER);
    assert [] + [refused] == [refused];
    assert first == (Err(Thrown(false, false, false, None)), State(0, map[], [refused]));
    assert GuardAllows(s, q);
    assert [refused] != [];
    assert Invoke(q, w, first.1, STRONG).1.trace
        == [refused, Admitted(1, STRONG, RECEIPT), Called(STRONG, true), Settled(1, STRONG, true)];
  }
}
