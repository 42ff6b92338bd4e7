/**
 * One request to the AI coordinator (`AiOrchestrator.run` in src/core/ai-orchestrator.js): reservations, provider
 * calls and settlements as a trace, against gateways and budget lifecycles that answer as they like.
 */
module Orchestrator {
  import opened Common
  import RP = RoutePool
  import SL = StrongLimiter

  type Id = Text

  datatype RouteIdentity = RouteIdentity(routeId: Id, provider: Text, model: Text)

  datatype Receipt = Receipt(
    reservationId: Text, controlEpoch: Option<int>, callNumber: Option<int>, route: RouteIdentity, modelCalls: Option<int>)

  /** Only the browser agent's reservations are compared with what was admitted. */
  datatype Context = BrowserAgent(jobId: Text, controlEpoch: nat) | OtherContext

  /** What is thrown: an ordinary object, an object that takes no new properties, or no object at all. */
  datatype Kind = PLAIN | LOCKED | PRIMITIVE

  datatype Admission = Granted(receipt: Receipt) | Refused(kind: Kind)

  datatype Answer = Completed(value: Value) | Failed(kind: Kind, retryable: bool)

  datatype Settlement = Accepted | NotAccepted(kind: Kind)

  datatype Value = Value(outputTokens: nat, escalates: bool)

  datatype Event =
    | Admitted(number: nat, route: RouteIdentity, receipt: Receipt)
    | NotAdmitted(number: nat, route: RouteIdentity, kind: Kind)
    | Called(route: RouteIdentity, ok: bool)
    | Settled(number: nat, route: RouteIdentity, ok: bool)
    | NotSettled(number: nat, route: RouteIdentity, ok: bool, kind: Kind)

  /** Everything outside the request, free to depend on all that happened so far. */
  datatype World = World(
    admit: seq<Event> -> Admission, complete: seq<Event> -> Answer, settle: seq<Event> -> Settlement,
    clock: seq<Event> -> nat, latency: seq<Event> -> nat)

  datatype Mode = PRIMARY_ONLY | STRONG_ONLY | HYBRID_AUTO | HYBRID_RULES

  datatype Settings = Settings(
    mode: Mode, primary: RouteIdentity, strong: RouteIdentity, routes: seq<RP.Route>, identity: RP.Route -> RouteIdentity,
    policy: RP.Policy, limits: SL.Limits, fallbackToStrong: bool, keepPrimary: bool)

  datatype Request = Request(
    now: nat, runtime: SL.Runtime, forceStrong: bool, outputCeiling: nat, callCeiling: nat, role: RP.Role, strongRole: RP.Role,
    capabilityIds: set<Id>, requiresVision: bool, context: Option<Context>, lifecycle: bool)

  /** `recorded`: known not to be the provider's fault. `classified`: what a failing route attached to it. */
  datatype Thrown = Thrown(recorded: bool, isObject: bool, retryable: bool, classified: Option<bool>)

  datatype State = State(callsUsed: nat, routeStates: map<Id, RP.RouteState>, trace: seq<Event>)

  type Outcome = Result<Value, Thrown>

  const ERROR: Thrown := Thrown(false, true, false, None)

  /**
   * Attaching the runtime to what was thrown: a locked object throws another error instead, and a primitive
   * passes unrecorded, so only ordinary objects are remembered as not the provider's fault.
   */
  function Attach(kind: Kind, lifecycle: bool, retryable: bool): Thrown {
    match kind
    case PLAIN => Thrown(lifecycle, true, retryable, None)
    case LOCKED => ERROR
    case PRIMITIVE => Thrown(false, false, false, None)
  }

  /** ":model-budget:" as code units. */
  const BUDGET_MARK: Text := [58, 109, 111, 100, 101, 108, 45, 98, 117, 100, 103, 101, 116, 58]

  predicate Bound(receipt: Receipt, context: Context, route: RouteIdentity, number: nat) {
    context.BrowserAgent? ==>
      && context.jobId != [] && context.jobId + BUDGET_MARK <= receipt.reservationId
      && receipt.controlEpoch == Some(context.controlEpoch) && receipt.callNumber == Some(number)
      && receipt.route == route && receipt.modelCalls == Some(1)
  }

  // --------------------------------------------------------------- invoke

  function Settle(w: World, st: State, route: RouteIdentity, answer: Answer): (Outcome, State) {
    var ok := answer.Completed?;
    match w.settle(st.trace)
    case Accepted =>
      (if ok then Ok(answer.value) else Err(Attach(answer.kind, false, answer.retryable)),
       st.(trace := st.trace + [Settled(st.callsUsed, route, ok)]))
    case NotAccepted(kind) =>
      (Err(Attach(kind, true, false)), st.(trace := st.trace + [NotSettled(st.callsUsed, route, ok, kind)]))
  }

  /** The gateway call itself; it counts whatever comes of it. */
  function CallGateway(q: Request, w: World, st: State, route: RouteIdentity): (Outcome, State) {
    var answer := w.complete(st.trace);
    var called := State(st.callsUsed + 1, st.routeStates, st.trace + [Called(route, answer.Completed?)]);
    if q.context.Some? then Settle(w, called, route, answer)
    else if answer.Completed? then (Ok(answer.value), called)
    else (Err(Attach(answer.kind, false, answer.retryable)), called)
  }

  function Invoke(q: Request, w: World, st: State, route: RouteIdentity): (Outcome, State) {
    if q.callCeiling > 0 && st.callsUsed >= q.callCeiling then (Err(ERROR.(recorded := true)), st)
    else if q.context.Some? && !q.lifecycle then (Err(ERROR.(recorded := true)), st)
    else if q.context.None? then CallGateway(q, w, st, route)
    else
      var number := st.callsUsed + 1;
      match w.admit(st.trace)
      case Refused(kind) =>
        (Err(Attach(kind, true, false)), st.(trace := st.trace + [NotAdmitted(number, route, kind)]))
      case Granted(receipt) =>
        if !Bound(receipt, q.context.value, route, number) then
          (Err(Attach(PLAIN, true, false)), st.(trace := st.trace + [NotAdmitted(number, route, PLAIN)]))
        else CallGateway(q, w, st.(trace := st.trace + [Admitted(number, route, receipt)]), route)
  }

  /** A reservation bound to this call, the call, and one attempt to settle it. */
  ghost predicate Block(c: Context, b: seq<Event>, number: nat)
    requires |b| == 3
  {
    && b[0].Admitted? && b[1].Called?
    && b[0].number == number && b[1].route == b[0].route && Bound(b[0].receipt, c, b[0].route, number)
    && ((b[2].Settled? && b[2].number == number && b[2].route == b[0].route && b[2].ok == b[1].ok)
        || (b[2].NotSettled? && b[2].number == number && b[2].route == b[0].route && b[2].ok == b[1].ok))
  }

  /**
   * What one attempt on a route adds to the trace and to the counter: at most one gateway call, and with a budget no
   * call outside a block.
   */
  ghost predicate Attempt(q: Request, route: RouteIdentity, number: nat, ok: bool, added: seq<Event>, calls: int) {
    || (added == [] && calls == 0 && !ok)
    || (q.context.Some? && |added| == 1 && added[0].NotAdmitted? && added[0].number == number && added[0].route == route
        && calls == 0 && !ok)
    || (q.context.None? && added == [Called(route, ok)] && calls == 1)
    || (q.context.Some? && |added| == 3 && Block(q.context.value, added, number) && added[0].route == route
        && calls == 1 && ok == (added[1].ok && added[2].Settled?))
  }

  /** Turned away before anything is asked of the world outside. */
  predicate TurnedAway(q: Request, st: State) {
    (q.callCeiling > 0 && st.callsUsed >= q.callCeiling) || (q.context.Some? && !q.lifecycle)
  }

  lemma InvokeIsOneAttempt(q: Request, w: World, st: State, route: RouteIdentity)
    ensures var (r, after) := Invoke(q, w, st, route);
            && st.trace <= after.trace && after.routeStates == st.routeStates
            && Attempt(q, route, st.callsUsed + 1, r.Ok?, after.trace[|st.trace|..], after.callsUsed - st.callsUsed)
            && (after.trace == st.trace <==> TurnedAway(q, st))
  {
    var (r, after) := Invoke(q, w, st, route);
    var added := after.trace[|st.trace|..];
    if q.context.None? && !TurnedAway(q, st) {
      assert added == [Called(route, r.Ok?)];
    }
  }

  // ----------------------------------------------------------------- call

  function StateOf(st: State, id: Id): RP.RouteState { if id in st.routeStates then st.routeStates[id] else RP.UNUSED }

  function Recorded(s: Settings, w: World, st: State, route: RP.Route, ok: bool, retryable: bool): Result<State, ()> {
    var outcome := RP.Outcome(ok, retryable, w.clock(st.trace), w.latency(st.trace));
    var next :- RP.RecordOutcome(StateOf(st, route.routeId), s.policy, outcome);
    Ok(st.(routeStates := st.routeStates[route.routeId := next]))
  }

  /** What a failure leads to: stop with an error, or go on to the next route. */
  datatype Next = Stop(outcome: Outcome, st: State) | GoOn(st: State)

  function AfterFailure(s: Settings, w: World, st: State, route: RP.Route, thrown: Thrown): Next {
    if thrown.recorded then Stop(Err(thrown), st)
    else
      match Recorded(s, w, st, route, false, thrown.retryable)
      case Err(_) => Stop(Err(ERROR), st)
      case Ok(st') =>
        var marked := if thrown.isObject then thrown.(classified := Some(thrown.retryable)) else thrown;
        if !thrown.retryable || !s.policy.autoSwitch then Stop(Err(marked), st') else GoOn(st')
  }

  function TryRoute(s: Settings, q: Request, w: World, st: State, route: RP.Route): Next {
    var (outcome, after) := Invoke(q, w, st, s.identity(route));
    match outcome
    case Err(thrown) => AfterFailure(s, w, after, route, thrown)
    case Ok(value) =>
      match Recorded(s, w, after, route, true, false)
      case Ok(st') => Stop(Ok(value), st')
      case Err(_) => AfterFailure(s, w, after, route, ERROR)
  }

  /** Failing over through the candidates, best first. */
  function TryRoutes(s: Settings, q: Request, w: World, st: State, candidates: seq<RP.Route>): (Outcome, State)
    decreases |candidates|
  {
    if candidates == [] then (Err(ERROR), st)
    else
      match TryRoute(s, q, w, st, candidates[0])
      case Stop(outcome, st') => (outcome, st')
      case GoOn(st') => TryRoutes(s, q, w, st', candidates[1..])
  }

  function Candidates(s: Settings, q: Request, st: State, role: RP.Role): seq<RP.Route> {
    RP.SelectCandidates(s.routes, s.policy, st.routeStates, RP.Request(role, q.capabilityIds, q.requiresVision), q.now).candidates
  }

  function Call(s: Settings, q: Request, w: World, st: State, slot: RouteIdentity, role: RP.Role): (Outcome, State) {
    if s.routes != [] then TryRoutes(s, q, w, st, Candidates(s, q, st, role))
    else if slot.model == [] then (Err(ERROR), st)
    else Invoke(q, w, st, slot)
  }

  // ------------------------------------------------------------------ run

  /** How a run ends; `strong` is the strong pass that completed, if any. */
  datatype Ending = Finished(primary: Option<Value>, strong: Option<Value>) | Threw

  function GuardAllows(s: Settings, q: Request): bool {
    SL.AutomaticGuard(s.limits, q.runtime, q.now).Allowed?
  }

  function CallStrong(s: Settings, q: Request, w: World, st: State, spent: nat): (Outcome, State) {
    if q.outputCeiling > 0 && spent >= q.outputCeiling then (Err(ERROR), st)
    else Call(s, q, w, st, s.strong, q.strongRole)
  }

  function FallBack(s: Settings, q: Request, w: World, st: State, thrown: Thrown): (Ending, State) {
    if thrown.recorded || thrown.classified == Some(false) then (Threw, st)
    else if !s.fallbackToStrong || (s.routes == [] && s.strong.model == []) then (Threw, st)
    else if !GuardAllows(s, q) then (Threw, st)
    else
      var (outcome, after) := CallStrong(s, q, w, st, 0);
      (if outcome.Ok? then Finished(None, Some(outcome.value)) else Threw, after)
  }

  predicate WantsStrong(s: Settings, q: Request, primary: Value) {
    || (s.mode.HYBRID_AUTO? && primary.escalates)
    || (s.mode.HYBRID_RULES? && SL.ScheduledStrong(s.limits, q.runtime, q.now))
  }

  function Escalate(s: Settings, q: Request, w: World, st: State, primary: Value): (Ending, State) {
    if !WantsStrong(s, q, primary) || !GuardAllows(s, q) then (Finished(Some(primary), None), st)
    else
      var (outcome, after) := CallStrong(s, q, w, st, primary.outputTokens);
      if outcome.Ok? then (Finished(Some(primary), Some(outcome.value)), after)
      else if s.keepPrimary then (Finished(Some(primary), None), after)
      else (Threw, after)
  }

  predicate Manual(s: Settings, q: Request) { q.forceStrong || s.mode.STRONG_ONLY? }

  function Run(s: Settings, q: Request, w: World, st: State): (Ending, State) {
    if Manual(s, q) then
      var (outcome, after) := Call(s, q, w, st, s.strong, q.strongRole);
      (if outcome.Ok? then Finished(None, Some(outcome.value)) else Threw, after)
    else
      var (outcome, after) := Call(s, q, w, st, s.primary, q.role);
      match outcome
      case Err(thrown) => FallBack(s, q, w, after, thrown)
      case Ok(primary) => Escalate(s, q, w, after, primary)
  }

  function Started(states: map<Id, RP.RouteState>): State { State(0, states, []) }

  // ------------------------------------------------------- the imperative form

  /** The variables the closures of one run share, and the trace of what the run did to the world outside. */
  class RunState {
    const settings: Settings
    const request: Request
    const world: World
    var callsUsed: nat
    var routeStates: map<Id, RP.RouteState>
    var trace: seq<Event>

    constructor (settings: Settings, request: Request, world: World, routeStates: map<Id, RP.RouteState>)
      ensures Now() == Started(routeStates)
      ensures this.settings == settings && this.request == request && this.world == world
    {
      this.settings, this.request, this.world := settings, request, world;
      this.callsUsed, this.routeStates, this.trace := 0, routeStates, [];
    }

    function Now(): State
      reads this
    {
      State(callsUsed, routeStates, trace)
    }

    method PerformCall(route: RouteIdentity) returns (r: Outcome)
      modifies this
      ensures (r, Now()) == CallGateway(request, world, old(Now()), route)
    {
      callsUsed := callsUsed + 1;
      var answer := world.complete(trace);
      var ok := answer.Completed?;
      trace := trace + [Called(route, ok)];
      if request.context.Some? {
        var settlement := world.settle(trace);
        if settlement.NotAccepted? {
          trace := trace + [NotSettled(callsUsed, route, ok, settlement.kind)];
          return Err(Attach(settlement.kind, true, false));
        }
        trace := trace + [Settled(callsUsed, route, ok)];
      }
      r := if ok then Ok(answer.value) else Err(Attach(answer.kind, false, answer.retryable));
    }

    method PerformInvoke(route: RouteIdentity) returns (r: Outcome)
      modifies this
      ensures old(trace) <= trace && routeStates == old(routeStates)
      ensures Attempt(request, route, old(callsUsed) + 1, r.Ok?, trace[|old(trace)|..], callsUsed - old(callsUsed))
      ensures trace == old(trace) <==> TurnedAway(request, old(Now()))
      ensures (r, Now()) == Invoke(request, world, old(Now()), route)
    {
      InvokeIsOneAttempt(request, world, Now(), route);
      if request.callCeiling > 0 && callsUsed >= request.callCeiling { return Err(ERROR.(recorded := true)); }
      if request.context.Some? && !request.lifecycle { return Err(ERROR.(recorded := true)); }
      if request.context.Some? {
        var number := callsUsed + 1;
        var admission := world.admit(trace);
        if admission.Refused? {
          trace := trace + [NotAdmitted(number, route, admission.kind)];
          return Err(Attach(admission.kind, true, false));
        }
        if !Bound(admission.receipt, request.context.value, route, number) {
          trace := trace + [NotAdmitted(number, route, PLAIN)];
          return Err(Attach(PLAIN, true, false));
        }
        trace := trace + [Admitted(number, route, admission.receipt)];
      }
      r := PerformCall(route);
    }

    method TryOne(route: RP.Route) returns (next: Next)
      modifies this
      ensures next == TryRoute(settings, request, world, old(Now()), route)
      ensures Now() == next.st
    {
      var r := PerformInvoke(settings.identity(route));
      var thrown := ERROR;
      if r.Ok? {
        var after := Recorded(settings, world, Now(), route, true, false);
        if after.Ok? {
          routeStates := after.value.routeStates;
          return Stop(r, Now());
        }
      } else {
        thrown := r.error;
      }
      next := AfterFailure(settings, world, Now(), route, thrown);
      routeStates := next.st.routeStates;
    }

    /** The failover loop. */
    method PerformCallOn(slot: RouteIdentity, role: RP.Role) returns (r: Outcome)
      modifies this
      ensures (r, Now()) == Call(settings, request, world, old(Now()), slot, role)
    {
      if settings.routes == [] {
        if slot.model == [] { return Err(ERROR); }
        r := PerformInvoke(slot);
        return;
      }
      var candidates := Candidates(settings, request, Now(), role);
      var i := 0;
      while i < |candidates|
        invariant i <= |candidates|
        invariant TryRoutes(settings, request, world, Now(), candidates[i..])
                  == TryRoutes(settings, request, world, old(Now()), candidates)
      {
        assert candidates[i..][0] == candidates[i] && candidates[i..][1..] == candidates[i + 1..];
        var next := TryOne(candidates[i]);
        if next.Stop? { return next.outcome; }
        i := i + 1;
      }
      r := Err(ERROR);
    }

    method Execute() returns (ending: Ending)
      modifies this
      ensures (ending, Now()) == Run(settings, request, world, old(Now()))
    {
      if Manual(settings, request) {
        var forced := PerformCallOn(settings.strong, request.strongRole);
        return if forced.Ok? then Finished(None, Some(forced.value)) else Threw;
      }
      var first := PerformCallOn(settings.primary, request.role);
      var primary: Option<Value> := None;
      if first.Err? {
        if first.error.recorded || first.error.classified == Some(false) { return Threw; }
        if !settings.fallbackToStrong || (settings.routes == [] && settings.strong.model == []) { return Threw; }
      } else {
        primary := Some(first.value);
        if !WantsStrong(settings, request, first.value) { return Finished(primary, None); }
      }
      if !GuardAllows(settings, request) { return if primary.Some? then Finished(primary, None) else Threw; }
      var spent := if primary.Some? then primary.value.outputTokens else 0;
      var second: Outcome := Err(ERROR);
      if !(request.outputCeiling > 0 && spent >= request.outputCeiling) {
        second := PerformCallOn(settings.strong, request.strongRole);
      }
      if second.Ok? { return Finished(primary, Some(second.value)); }
      ending := if primary.Some? && settings.keepPrimary then Finished(primary, None) else Threw;
    }
  }
}
