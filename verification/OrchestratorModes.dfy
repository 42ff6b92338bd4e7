/** Which models a run calls in each mode, and what it returns: `run` in src/core/ai-orchestrator.js. */
module OrchestratorModes {
  import opened Common
  import opened Orchestrator
  import RP = RoutePool
  import SL = StrongLimiter

  function PrimaryCall(s: Settings, q: Request, w: World, st: State): (Outcome, State) {
    Call(s, q, w, st, s.primary, q.role)
  }

  function StrongCall(s: Settings, q: Request, w: World, st: State): (Outcome, State) {
    Call(s, q, w, st, s.strong, q.strongRole)
  }

  /** The review by the strong model is due: so many requests, or so many minutes since the last one or the start. */
  predicate ReviewIsDue(l: SL.Limits, rt: SL.Runtime, now: nat) {
    || (l.everyNRequests > 0 && exists k :: 0 <= k <= rt.requestCount + 1 && k * l.everyNRequests == rt.requestCount + 1)
    || (l.everyMinutes > 0 && rt.lastStrongAt > 0 && now >= rt.lastStrongAt + l.everyMinutes * 60000)
    || (l.everyMinutes > 0 && rt.lastStrongAt == 0 && rt.startedAt > 0 && now >= rt.startedAt + l.everyMinutes * 60000)
  }

  /** The mode asks for the strong model after this answer. */
  predicate AsksForStrong(s: Settings, q: Request, primary: Value) {
    match s.mode
    case PRIMARY_ONLY => false
    case STRONG_ONLY => false
    case HYBRID_AUTO => primary.escalates
    case HYBRID_RULES => ReviewIsDue(s.limits, q.runtime, q.now)
  }

  lemma AtLeastFactor(d: int, n: int)
    requires n > 0
    ensures d >= 1 ==> d * n >= n
    ensures d <= -1 ==> d * n <= -n
  {
  }

  lemma Multiples(a: nat, n: nat)
    requires n > 0
    ensures a % n == 0 <==> exists k :: 0 <= k <= a && k * n == a
  {
    var k := a / n;
    assert k * n + a % n == a;
    if a % n == 0 { AtMostProduct(k, n); }
    forall m | 0 <= m <= a && m * n == a ensures a % n == 0 {
      AtLeastFactor(m - k, n);
      assert (m - k) * n == m * n - k * n;
    }
  }

  lemma AtMostProduct(k: nat, n: nat)
    requires n > 0
    ensures k <= k * n
  {
  }

  lemma DueExactly(l: SL.Limits, rt: SL.Runtime, now: nat)
    ensures SL.ScheduledStrong(l, rt, now) <==> ReviewIsDue(l, rt, now)
  {
    if l.everyNRequests > 0 { Multiples(rt.requestCount + 1, l.everyNRequests); }
  }

  /** A forced run, and every run in the strong-only mode, calls the strong model, once and alone. */
  lemma ForcedRun(s: Settings, q: Request, w: World, st: State)
    requires q.forceStrong || s.mode.STRONG_ONLY?
    ensures var (outcome, after) := StrongCall(s, q, w, st);
            Run(s, q, w, st) == (if outcome.Ok? then Finished(None, Some(outcome.value)) else Threw, after)
  {
  }

  /**
   * After an answer of the primary model a run nobody forced calls the strong model exactly when the mode asks for
   * it, the guard allows it and the answer has not spent the output ceiling. A strong answer is returned beside the
   * first one; without one the first is returned alone, unless the strong model was wanted and failed, or was barred
   * by the ceiling, and the owner does not keep first answers.
   */
  lemma AnsweredRun(s: Settings, q: Request, w: World, st: State)
    requires !q.forceStrong && !s.mode.STRONG_ONLY? && PrimaryCall(s, q, w, st).0.Ok?
    ensures var (first, after) := PrimaryCall(s, q, w, st);
            var wanted := AsksForStrong(s, q, first.value) && GuardAllows(s, q);
            var spent := q.outputCeiling > 0 && first.value.outputTokens >= q.outputCeiling;
            var (strong, last) := StrongCall(s, q, w, after);
            Run(s, q, w, st) ==
              if !wanted then (Finished(Some(first.value), None), after)
              else if !spent && strong.Ok? then (Finished(Some(first.value), Some(strong.value)), last)
              else (if s.keepPrimary then Finished(Some(first.value), None) else Threw, if spent then after else last)
  {
    hide Call, SL.AutomaticGuard, SL.ScheduledStrong, ReviewIsDue;
    DueExactly(s.limits, q.runtime, q.now);
  }

  /**
   * After a failure of the primary model a run nobody forced calls the strong model exactly when the failure counts as
   * the provider's and no route called it final, fallback is on, a strong model is configured, and the guard allows it.
   */
  lemma FailedRun(s: Settings, q: Request, w: World, st: State)
    requires !q.forceStrong && !s.mode.STRONG_ONLY? && PrimaryCall(s, q, w, st).0.Err?
    ensures var (first, after) := PrimaryCall(s, q, w, st);
            var wanted := !first.error.recorded && first.error.classified != Some(false) && s.fallbackToStrong
                          && (s.routes != [] || s.strong.model != []) && GuardAllows(s, q);
            var (strong, last) := StrongCall(s, q, w, after);
            Run(s, q, w, st) ==
              if !wanted then (Threw, after)
              else (if strong.Ok? then Finished(None, Some(strong.value)) else Threw, last)
  {
    hide Call, SL.AutomaticGuard;
  }
}
