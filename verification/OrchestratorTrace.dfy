/** What the trace of every run looks like: src/core/ai-orchestrator.js, `run` with its `invoke` and `call`. */
module OrchestratorTrace {
  import opened Common
  import opened Orchestrator
  import RP = RoutePool
  import SL = StrongLimiter

  function Calls(t: seq<Event>): nat
    decreases |t|
  {
    if t == [] then 0 else Calls(t[..|t| - 1]) + if t[|t| - 1].Called? then 1 else 0
  }

  /** n blocks numbered 1, 2, 3, ..., with refused reservations for the next number in between. */
  ghost predicate Numbered(c: Context, t: seq<Event>, n: nat)
    decreases |t|
  {
    if t == [] then n == 0
    else if t[|t| - 1].NotAdmitted? then t[|t| - 1].number == n + 1 && Numbered(c, t[..|t| - 1], n)
    else n > 0 && |t| >= 3 && Block(c, t[|t| - 3..], n) && Numbered(c, t[..|t| - 3], n - 1)
  }

  /** A lifecycle that did not do its part, and said so with an ordinary object. */
  predicate PlainFailure(e: Event) {
    (e.NotAdmitted? && e.kind.PLAIN?) || (e.NotSettled? && e.kind.PLAIN?)
  }

  predicate Clean(t: seq<Event>) { forall i | 0 <= i < |t| :: !PlainFailure(t[i]) }

  /** Nothing happens after such a failure. */
  predicate FailsClosed(t: seq<Event>) { forall i | 0 <= i < |t| - 1 :: !PlainFailure(t[i]) }

  /** What holds of every state of a run: the trace agrees with the counter, and the ceiling is kept. */
  ghost predicate Sound(q: Request, st: State) {
    && Calls(st.trace) == st.callsUsed
    && (q.callCeiling > 0 ==> st.callsUsed <= q.callCeiling)
    && (q.context.Some? ==> Numbered(q.context.value, st.trace, st.callsUsed))
    && FailsClosed(st.trace)
  }

  /** A run goes on only from a clean trace: after a plain failure the error is known not to be the provider's. */
  ghost predicate Stops(outcome: Outcome, st: State) {
    Clean(st.trace) || (outcome.Err? && outcome.error.recorded)
  }

  lemma CallsAfter(t: seq<Event>, e: Event)
    ensures Calls(t + [e]) == Calls(t) + if e.Called? then 1 else 0
  {
    assert (t + [e])[..|t|] == t;
  }

  lemma CleanThenFails(t: seq<Event>, e: Event)
    requires Clean(t)
    ensures FailsClosed(t + [e]) && (!PlainFailure(e) ==> Clean(t + [e]))
  {
  }

  lemma RefusalIsNumbered(c: Context, t: seq<Event>, n: nat, e: Event)
    requires Numbered(c, t, n) && e.NotAdmitted? && e.number == n + 1
    ensures Numbered(c, t + [e], n)
  {
    assert (t + [e])[..|t|] == t;
  }

  lemma BlockIsNumbered(c: Context, t: seq<Event>, n: nat, a: Event, b: Event, e: Event)
    requires Numbered(c, t, n) && !e.NotAdmitted? && Block(c, [a, b, e], n + 1)
    ensures Numbered(c, ((t + [a]) + [b]) + [e], n + 1)
  {
    var all := ((t + [a]) + [b]) + [e];
    assert all[..|all| - 3] == t && all[|all| - 3..] == [a, b, e];
  }

  // -------------------------------------------------------- one provider call

  /** What a reserved call appends to the trace. */
  lemma GatewayTrace(q: Request, w: World, st: State, route: RouteIdentity) returns (b: Event, e: Event)
    requires q.context.Some?
    ensures var (r, after) := CallGateway(q, w, st, route);
            && after.trace == (st.trace + [b]) + [e] && after.callsUsed == st.callsUsed + 1
            && b.Called? && b.route == route && (e.Settled? || e.NotSettled?)
            && e.number == st.callsUsed + 1 && e.route == route && e.ok == b.ok
            && (PlainFailure(e) ==> r.Err? && r.error.recorded)
  {
    b := Called(route, w.complete(st.trace).Completed?);
    var (r, after) := CallGateway(q, w, st, route);
    e := after.trace[|after.trace| - 1];
  }

  lemma BlockCounts(t: seq<Event>, a: Event, b: Event, e: Event)
    requires !a.Called? && b.Called? && !e.Called?
    ensures Calls(((t + [a]) + [b]) + [e]) == Calls(t) + 1
  {
    CallsAfter(t, a);
    CallsAfter(t + [a], b);
    CallsAfter((t + [a]) + [b], e);
  }

  lemma BlockFailsClosed(t: seq<Event>, a: Event, b: Event, e: Event)
    requires Clean(t) && a.Admitted? && b.Called?
    ensures FailsClosed(((t + [a]) + [b]) + [e]) && (!PlainFailure(e) ==> Clean(((t + [a]) + [b]) + [e]))
  {
    CleanThenFails(t, a);
    CleanThenFails(t + [a], b);
    CleanThenFails((t + [a]) + [b], e);
  }

  lemma BlockIsSound(q: Request, st: State, a: Event, b: Event, e: Event, after: State)
    requires Sound(q, st) && Clean(st.trace) && (q.callCeiling > 0 ==> st.callsUsed < q.callCeiling)
    requires q.context.Some? && Block(q.context.value, [a, b, e], st.callsUsed + 1)
    requires after.trace == ((st.trace + [a]) + [b]) + [e] && after.callsUsed == st.callsUsed + 1
    ensures Sound(q, after) && (!PlainFailure(e) ==> Clean(after.trace))
  {
    assert [a, b, e][0] == a && [a, b, e][1] == b && [a, b, e][2] == e;
    BlockIsNumbered(q.context.value, st.trace, st.callsUsed, a, b, e);
    BlockCounts(st.trace, a, b, e);
    BlockFailsClosed(st.trace, a, b, e);
    hide Numbered, Block, Bound, Calls, FailsClosed, Clean;
  }

  lemma GatewayIsSound(q: Request, w: World, st: State, route: RouteIdentity, receipt: Receipt)
    requires Sound(q, st) && Clean(st.trace) && (q.callCeiling > 0 ==> st.callsUsed < q.callCeiling)
    requires q.context.Some? && Bound(receipt, q.context.value, route, st.callsUsed + 1)
    ensures var admitted := st.(trace := st.trace + [Admitted(st.callsUsed + 1, route, receipt)]);
            var (r, after) := CallGateway(q, w, admitted, route);
            Sound(q, after) && Stops(r, after)
  {
    hide Sound, CallGateway, Bound, Clean;
    var a := Admitted(st.callsUsed + 1, route, receipt);
    var admitted := st.(trace := st.trace + [a]);
    var b, e := GatewayTrace(q, w, admitted, route);
    BlockIsSound(q, st, a, b, e, CallGateway(q, w, admitted, route).1);
  }

  lemma BareCallIsSound(q: Request, w: World, st: State, route: RouteIdentity)
    requires Sound(q, st) && Clean(st.trace) && (q.callCeiling > 0 ==> st.callsUsed < q.callCeiling) && q.context.None?
    ensures var (r, after) := CallGateway(q, w, st, route); Sound(q, after) && Stops(r, after)
  {
    var b := Called(route, w.complete(st.trace).Completed?);
    CallsAfter(st.trace, b);
    CleanThenFails(st.trace, b);
  }

  lemma RefusedIsSound(q: Request, st: State, e: Event)
    requires Sound(q, st) && Clean(st.trace) && q.context.Some? && e.NotAdmitted? && e.number == st.callsUsed + 1
    ensures Sound(q, st.(trace := st.trace + [e]))
    ensures !PlainFailure(e) ==> Clean(st.trace + [e])
  {
    CallsAfter(st.trace, e);
    CleanThenFails(st.trace, e);
    RefusalIsNumbered(q.context.value, st.trace, st.callsUsed, e);
  }

  lemma InvokeIsSound(q: Request, w: World, st: State, route: RouteIdentity)
    requires Sound(q, st) && Clean(st.trace)
    ensures var (r, after) := Invoke(q, w, st, route); Sound(q, after) && Stops(r, after)
  {
    hide Sound, CallGateway, Bound;
    if q.callCeiling > 0 && st.callsUsed >= q.callCeiling {
    } else if q.context.None? {
      BareCallIsSound(q, w, st, route);
    } else if q.lifecycle {
      match w.admit(st.trace)
      case Refused(kind) => RefusedIsSound(q, st, NotAdmitted(st.callsUsed + 1, route, kind));
      case Granted(receipt) =>
        if Bound(receipt, q.context.value, route, st.callsUsed + 1) {
          GatewayIsSound(q, w, st, route, receipt);
        } else {
          RefusedIsSound(q, st, NotAdmitted(st.callsUsed + 1, route, PLAIN));
        }
    }
  }

  // ---------------------------------------------------- failover and the run

  lemma FailureStops(s: Settings, q: Request, w: World, st: State, route: RP.Route, thrown: Thrown)
    requires Sound(q, st) && (Clean(st.trace) || thrown.recorded)
    ensures var next := AfterFailure(s, w, st, route, thrown);
            && Sound(q, next.st) && next.st.trace == st.trace
            && (next.GoOn? ==> Clean(st.trace)) && (next.Stop? ==> Stops(next.outcome, next.st))
  {
  }

  lemma TryRouteIsSound(s: Settings, q: Request, w: World, st: State, route: RP.Route)
    requires Sound(q, st) && Clean(st.trace)
    ensures var next := TryRoute(s, q, w, st, route);
            && Sound(q, next.st)
            && (next.GoOn? ==> Clean(next.st.trace)) && (next.Stop? ==> Stops(next.outcome, next.st))
  {
    InvokeIsSound(q, w, st, s.identity(route));
    var (outcome, after) := Invoke(q, w, st, s.identity(route));
    hide Invoke, AfterFailure;
    if outcome.Err? {
      FailureStops(s, q, w, after, route, outcome.error);
    } else {
      FailureStops(s, q, w, after, route, ERROR);
    }
  }

  lemma {:induction false} TryRoutesIsSound(s: Settings, q: Request, w: World, st: State, candidates: seq<RP.Route>)
    requires Sound(q, st) && Clean(st.trace)
    ensures var (r, after) := TryRoutes(s, q, w, st, candidates); Sound(q, after) && Stops(r, after)
    decreases |candidates|
  {
    hide Sound, TryRoute;
    if candidates != [] {
      TryRouteIsSound(s, q, w, st, candidates[0]);
      var next := TryRoute(s, q, w, st, candidates[0]);
      if next.GoOn? { TryRoutesIsSound(s, q, w, next.st, candidates[1..]); }
    }
  }

  lemma CallIsSound(s: Settings, q: Request, w: World, st: State, slot: RouteIdentity, role: RP.Role)
    requires Sound(q, st) && Clean(st.trace)
    ensures var (r, after) := Call(s, q, w, st, slot, role); Sound(q, after) && Stops(r, after)
  {
    hide Sound, Invoke, TryRoutes, Candidates;
    if s.routes != [] {
      TryRoutesIsSound(s, q, w, st, Candidates(s, q, st, role));
    } else {
      InvokeIsSound(q, w, st, slot);
    }
  }

  lemma CallStrongIsSound(s: Settings, q: Request, w: World, st: State, spent: nat)
    requires Sound(q, st) && Clean(st.trace)
    ensures Sound(q, CallStrong(s, q, w, st, spent).1)
  {
    CallIsSound(s, q, w, st, s.strong, q.strongRole);
  }

  /**
   * The trace of every run, whatever the gateway and the lifecycle answer: reservations numbered 1, 2, 3, ..., each
   * bound to the call that follows it and followed by one attempt to settle; no more calls than the ceiling; the
   * counter that is reported is the number of gateway calls, failed ones included; and after a lifecycle failure
   * thrown as an ordinary object nothing more happens.
   */
  lemma RunIsSound(s: Settings, q: Request, w: World, states: map<Id, RP.RouteState>)
    ensures Sound(q, Run(s, q, w, Started(states)).1)
  {
    var st := Started(states);
    assert Sound(q, st) && Clean(st.trace);
    hide Sound, Call, CallStrong;
    if Manual(s, q) {
      CallIsSound(s, q, w, st, s.strong, q.strongRole);
    } else {
      CallIsSound(s, q, w, st, s.primary, q.role);
      var (outcome, after) := Call(s, q, w, st, s.primary, q.role);
      match outcome
      case Err(thrown) => if !thrown.recorded { CallStrongIsSound(s, q, w, after, 0); }
      case Ok(primary) => CallStrongIsSound(s, q, w, after, primary.outputTokens);
    }
  }

  /** The call at i stands between its own bound reservation and one attempt to settle it. */
  ghost predicate Enclosed(c: Context, t: seq<Event>, i: nat) {
    && 1 <= i < |t| - 1 && t[i].Called?
    && t[i - 1].Admitted? && t[i - 1].number == Calls(t[..i]) + 1 && t[i - 1].route == t[i].route
    && Bound(t[i - 1].receipt, c, t[i].route, t[i - 1].number)
    && (t[i + 1].Settled? || t[i + 1].NotSettled?) && t[i + 1].number == t[i - 1].number && t[i + 1].route == t[i].route
    && t[i + 1].ok == t[i].ok
  }

  lemma EnclosedInLonger(c: Context, u: seq<Event>, t: seq<Event>, i: nat)
    requires |u| <= |t| && t[..|u|] == u && Enclosed(c, u, i)
    ensures Enclosed(c, t, i)
  {
    assert u[..i] == t[..i];
    assert u[i - 1] == t[i - 1] && u[i] == t[i] && u[i + 1] == t[i + 1];
  }

  lemma LastIsEnclosed(c: Context, t: seq<Event>, n: nat)
    requires |t| >= 3 && n > 0 && Block(c, t[|t| - 3..], n) && Calls(t[..|t| - 3]) == n - 1
    ensures Enclosed(c, t, |t| - 2)
  {
    var u := t[..|t| - 3];
    CallsAfter(u, t[|t| - 3]);
    assert t[..|t| - 2] == u + [t[|t| - 3]];
  }

  /** In a numbered trace every call is enclosed. */
  lemma {:induction false} EveryCallIsReserved(c: Context, t: seq<Event>, n: nat, i: nat)
    requires Numbered(c, t, n) && i < |t| && t[i].Called?
    ensures Enclosed(c, t, i)
    decreases |t|
  {
    hide Enclosed;
    if t[|t| - 1].NotAdmitted? {
      EveryCallIsReserved(c, t[..|t| - 1], n, i);
      EnclosedInLonger(c, t[..|t| - 1], t, i);
    } else if i < |t| - 3 {
      EveryCallIsReserved(c, t[..|t| - 3], n - 1, i);
      EnclosedInLonger(c, t[..|t| - 3], t, i);
    } else {
      NumberedCount(c, t[..|t| - 3], n - 1);
      LastIsEnclosed(c, t, n);
    }
  }

  lemma {:induction false} NumberedCount(c: Context, t: seq<Event>, n: nat)
    requires Numbered(c, t, n)
    ensures Calls(t) == n
    decreases |t|
  {
    if t != [] {
      if t[|t| - 1].NotAdmitted? {
        NumberedCount(c, t[..|t| - 1], n);
      } else {
        var u := t[..|t| - 3];
        var a, b, e := t[|t| - 3], t[|t| - 2], t[|t| - 1];
        NumberedCount(c, u, n - 1);
        assert Block(c, t[|t| - 3..], n);
        assert t == ((u + [a]) + [b]) + [e];
        CallsAfter(u, a);
        CallsAfter(u + [a], b);
        CallsAfter((u + [a]) + [b], e);
      }
    }
  }

  // ------------------------------------------------------- the strong pass

  /** Unless the guard allows it, a run nobody forced is its primary call: the strong model is not even tried. */
  lemma StrongPassIsGuarded(s: Settings, q: Request, w: World, st: State)
    requires !Manual(s, q) && !GuardAllows(s, q)
    ensures var (ending, after) := Run(s, q, w, st);
            after == Call(s, q, w, st, s.primary, q.role).1 && (ending.Finished? ==> ending.strong.None?)
  {
  }

  /**
   * After any series of completed runs the strong model is tried without being asked for, successfully or not, only
   * while fewer strong passes than allowed completed in the last hour and the minimum gap to each of them is over.
   */
  lemma StrongAttemptsAreGuarded(s: Settings, q: Request, w: World, st: State, passes: seq<SL.Pass>)
    requires SL.LimitsValid(s.limits) && !Manual(s, q)
    requires SL.ClockRuns(passes) && (passes != [] ==> q.now >= passes[|passes| - 1].at)
    requires q.runtime == SL.Normalize(SL.After(passes))
    requires Run(s, q, w, st).1 != Call(s, q, w, st, s.primary, q.role).1
    ensures s.limits.maxPerHour > 0 ==> |SL.Within(SL.StrongTimes(passes), q.now, SL.HOUR)| < s.limits.maxPerHour
    ensures forall t <- SL.StrongTimes(passes) :: q.now >= t + s.limits.minGapMinutes * SL.MINUTE
  {
    if !GuardAllows(s, q) { StrongPassIsGuarded(s, q, w, st); }
    hide Run, Call;
    SL.GuardMeansRoom(s.limits, passes, q.now);
  }

  /** Completed runs one after the other, each from the runtime the one before left, with the passes they report. */
  ghost predicate Session(s: Settings, requests: seq<Request>, worlds: seq<World>, states: seq<State>, passes: seq<SL.Pass>) {
    && |requests| == |worlds| == |states| == |passes|
    && forall k | 0 <= k < |passes| :: Reports(s, requests[k], worlds[k], states[k], passes[..k], passes[k])
  }

  ghost predicate Reports(s: Settings, q: Request, w: World, st: State, before: seq<SL.Pass>, pass: SL.Pass) {
    var ending := Run(s, q, w, st).0;
    && q.runtime == SL.Normalize(SL.After(before)) && ending.Finished?
    && pass == SL.Pass(q.now, ending.strong.Some?, Manual(s, q))
  }

  /** With fixed limits and a clock that never goes back no sixty minutes hold more automatic strong passes than allowed. */
  lemma StrongPassesPerHour(s: Settings, requests: seq<Request>, worlds: seq<World>, states: seq<State>, passes: seq<SL.Pass>, now: nat)
    requires SL.LimitsValid(s.limits) && s.limits.maxPerHour > 0
    requires Session(s, requests, worlds, states, passes) && SL.ClockRuns(passes)
    requires forall p <- passes :: !p.manual
    requires passes != [] ==> now >= passes[|passes| - 1].at
    ensures |SL.Within(SL.StrongTimes(passes), now, SL.HOUR)| <= s.limits.maxPerHour
  {
    hide Run;
    forall k | 0 <= k < |passes| && passes[k].strong && !passes[k].manual
      ensures SL.AutomaticGuard(s.limits, SL.Normalize(SL.After(passes[..k])), passes[k].at).Allowed?
    {
      assert Reports(s, requests[k], worlds[k], states[k], passes[..k], passes[k]);
      if !GuardAllows(s, requests[k]) { StrongPassIsGuarded(s, requests[k], worlds[k], states[k]); }
    }
    SL.AnyHourHolds(s.limits, passes, now);
  }
}
