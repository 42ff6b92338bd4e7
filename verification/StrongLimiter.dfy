/**
 * How often the strong model is called on its own: `automaticStrongGuard`, `shouldScheduledStrong` and the
 * runtime record of src/core/ai-orchestrator.js. Instants are epoch milliseconds.
 */
module StrongLimiter {
  import opened Common

  datatype Limits = Limits(minGapMinutes: nat, maxPerHour: nat, everyNRequests: nat, everyMinutes: nat)

  datatype Runtime = Runtime(requestCount: nat, startedAt: nat, lastStrongAt: nat, strongHistoryAt: seq<nat>)

  datatype Guard = Allowed | MinGap(retryAt: nat) | HourlyLimit(retryAt: nat)

  const MINUTE: nat := 60000
  const HOUR: nat := 3600000
  const DAY: nat := 86400000
  const HISTORY: nat := 1000

  predicate LimitsValid(l: Limits) {
    l.minGapMinutes <= 1440 && l.maxPerHour <= 1000 && l.everyNRequests <= 10000 && l.everyMinutes <= 10080
  }

  /** The entries less than `age` before now; the clock may be anything. */
  function Within(times: seq<nat>, now: nat, age: nat): seq<nat> {
    if times == [] then [] else (if now - times[0] < age then [times[0]] else []) + Within(times[1..], now, age)
  }

  function LastOf(times: seq<nat>, count: nat): seq<nat> {
    if |times| <= count then times else times[|times| - count..]
  }

  function NonZero(times: seq<nat>): seq<nat> {
    if times == [] then [] else (if times[0] != 0 then [times[0]] else []) + NonZero(times[1..])
  }

  function Normalize(rt: Runtime): Runtime {
    rt.(strongHistoryAt := LastOf(NonZero(rt.strongHistoryAt), HISTORY))
  }

  function Least(times: seq<nat>): nat
    requires times != []
  {
    if |times| == 1 then times[0] else Min(times[0], Least(times[1..]))
  }

  function AutomaticGuard(l: Limits, rt: Runtime, now: nat): Guard {
    var earliest := rt.lastStrongAt + l.minGapMinutes * MINUTE;
    var recent := Within(rt.strongHistoryAt, now, HOUR);
    if l.minGapMinutes > 0 && rt.lastStrongAt > 0 && now < earliest then MinGap(earliest)
    else if l.maxPerHour > 0 && |recent| >= l.maxPerHour then HourlyLimit(Least(recent) + HOUR)
    else Allowed
  }

  predicate ScheduledStrong(l: Limits, rt: Runtime, now: nat) {
    var baseline := if rt.lastStrongAt != 0 then rt.lastStrongAt else rt.startedAt;
    || (l.everyNRequests > 0 && (rt.requestCount + 1) % l.everyNRequests == 0)
    || (l.everyMinutes > 0 && baseline > 0 && now - baseline >= l.everyMinutes * MINUTE)
  }

  /** The runtime a completed run leaves behind. */
  function NextRuntime(rt: Runtime, now: nat, strong: bool): Runtime {
    var kept := Within(rt.strongHistoryAt, now, DAY);
    Runtime(rt.requestCount + 1, if rt.startedAt != 0 then rt.startedAt else now,
            if strong then now else rt.lastStrongAt, if strong then LastOf(kept + [now], HISTORY) else kept)
  }

  // --------------------------------------------------------- whole histories

  /** A completed run: when it started, whether a strong pass completed, and whether that pass was asked for by hand. */
  datatype Pass = Pass(at: nat, strong: bool, manual: bool)

  const FRESH: Runtime := Runtime(0, 0, 0, [])

  function After(passes: seq<Pass>): Runtime {
    if passes == [] then FRESH
    else
      var last := passes[|passes| - 1];
      NextRuntime(Normalize(After(passes[..|passes| - 1])), last.at, last.strong)
  }

  /** The clock is positive and never goes back. */
  ghost predicate ClockRuns(passes: seq<Pass>) {
    && (forall i | 0 <= i < |passes| :: passes[i].at > 0)
    && (forall i, j | 0 <= i < j < |passes| :: passes[i].at <= passes[j].at)
  }

  /** Every strong pass nobody asked for was let through by the guard. */
  ghost predicate Guarded(l: Limits, passes: seq<Pass>) {
    forall k | 0 <= k < |passes| && passes[k].strong && !passes[k].manual ::
      AutomaticGuard(l, Normalize(After(passes[..k])), passes[k].at).Allowed?
  }

  /** When all strong passes so far happened. */
  function StrongTimes(passes: seq<Pass>): seq<nat> {
    if passes == [] then []
    else
      var last := passes[|passes| - 1];
      StrongTimes(passes[..|passes| - 1]) + if last.strong then [last.at] else []
  }

  ghost predicate Rising(times: seq<nat>) { forall i, j | 0 <= i < j < |times| :: times[i] <= times[j] }

  ghost predicate AllOld(times: seq<nat>, now: nat, age: nat) { forall t <- times :: now - t >= age }

  ghost predicate AllUpTo(times: seq<nat>, now: nat) { forall t <- times :: 0 < t <= now }

  lemma {:induction false} WithinSplit(a: seq<nat>, b: seq<nat>, now: nat, age: nat)
    ensures Within(a + b, now, age) == Within(a, now, age) + Within(b, now, age)
  {
    if a == [] {
      assert a + b == b;
    } else {
      WithinSplit(a[1..], b, now, age);
      assert (a + b)[1..] == a[1..] + b;
      Associates(if now - a[0] < age then [a[0]] else [], Within(a[1..], now, age), Within(b, now, age));
    }
  }

  lemma HeadAndTail(times: seq<nat>)
    requires times != []
    ensures times[0] in times && forall t <- times[1..] :: t in times
  {
    assert times == [times[0]] + times[1..];
  }

  lemma {:induction false} WithinNone(times: seq<nat>, now: nat, age: nat)
    requires AllOld(times, now, age)
    ensures Within(times, now, age) == []
  {
    if times != [] {
      HeadAndTail(times);
      WithinNone(times[1..], now, age);
    }
  }

  lemma {:induction false} WithinAll(times: seq<nat>, now: nat, age: nat)
    requires forall t <- times :: now - t < age
    ensures Within(times, now, age) == times
  {
    if times != [] {
      HeadAndTail(times);
      WithinAll(times[1..], now, age);
    }
  }

  /** On rising times the recent ones are a tail. */
  lemma {:induction false} RecentIsATail(times: seq<nat>, now: nat, age: nat) returns (k: nat)
    requires Rising(times)
    ensures k <= |times| && Within(times, now, age) == times[k..] && AllOld(times[..k], now, age)
  {
    if times == [] {
      k := 0;
    } else if now - times[0] < age {
      k := 0;
      WithinAll(times, now, age);
    } else {
      var j := RecentIsATail(times[1..], now, age);
      k := j + 1;
      assert times[k..] == times[1..][j..];
      assert [] + times[k..] == times[k..];
      assert times[..k] == [times[0]] + times[1..][..j];
    }
  }

  lemma {:induction false} NonZeroAll(times: seq<nat>)
    requires forall t <- times :: t > 0
    ensures NonZero(times) == times
  {
    if times != [] {
      HeadAndTail(times);
      NonZeroAll(times[1..]);
    }
  }

  /**
   * What the record still knows: the forgotten strong passes are all at least a day old, or the record is full.
   */
  ghost predicate Remembers(times: seq<nat>, history: seq<nat>, now: nat) {
    && |history| <= HISTORY && |history| <= |times| && history == times[|times| - |history|..]
    && (AllOld(times[..|times| - |history|], now, DAY) || |history| == HISTORY)
  }

  ghost predicate Recorded(times: seq<nat>, rt: Runtime, now: nat) {
    && Rising(times) && AllUpTo(times, now) && Remembers(times, rt.strongHistoryAt, now)
    && rt.lastStrongAt == (if times == [] then 0 else times[|times| - 1])
  }

  lemma RecordedIsNormal(times: seq<nat>, rt: Runtime, now: nat)
    requires Recorded(times, rt, now)
    ensures Normalize(rt) == rt
  {
    var h := rt.strongHistoryAt;
    forall t | t in h ensures t > 0 { assert t in times; }
    NonZeroAll(h);
  }

  lemma TailRises(times: seq<nat>, d: nat)
    requires Rising(times) && d <= |times|
    ensures Rising(times[d..])
  {
  }

  /** On rising times everything before an old one is old. */
  lemma OldTogether(times: seq<nat>, n: nat, now: nat)
    requires Rising(times) && n < |times| && now - times[n] >= DAY
    ensures AllOld(times[..n + 1], now, DAY)
  {
    var early := times[..n + 1];
    forall t | t in early ensures now - t >= DAY {
      var i :| 0 <= i <= n && times[i] == t;
      if i < n { assert times[i] <= times[n]; }
    }
  }

  lemma OldStays(times: seq<nat>, before: nat, now: nat)
    requires AllOld(times, before, DAY) && before <= now
    ensures AllOld(times, now, DAY)
  {
  }

  /** Dropping what is a day old forgets nothing younger. */
  lemma KeptTail(times: seq<nat>, history: seq<nat>, before: nat, now: nat) returns (kept: seq<nat>)
    requires Rising(times) && Remembers(times, history, before) && before <= now
    ensures kept == Within(history, now, DAY) && Remembers(times, kept, now)
  {
    hide Within, Rising;
    var d := |times| - |history|;
    TailRises(times, d);
    var k := RecentIsATail(history, now, DAY);
    kept := history[k..];
    assert kept == times[d + k..];
    if k > 0 {
      assert history[..k][k - 1] in history[..k];
      OldTogether(times, d + k - 1, now);
    } else if AllOld(times[..d], before, DAY) {
      OldStays(times[..d], before, now);
    }
  }

  lemma NextIsRecorded(times: seq<nat>, rt: Runtime, before: nat, now: nat, strong: bool)
    requires Recorded(times, rt, before) && before <= now && now > 0
    ensures Recorded(times + if strong then [now] else [], NextRuntime(rt, now, strong), now)
  {
    var kept := KeptTail(times, rt.strongHistoryAt, before, now);
    if strong {
      AddedTail(times, kept, now);
      var all := times + [now];
      forall i, j | 0 <= i < j < |all| ensures all[i] <= all[j] { assert times[i] in times; }
    } else {
      assert times + [] == times;
    }
  }

  lemma AddedTail(times: seq<nat>, kept: seq<nat>, now: nat)
    requires Remembers(times, kept, now)
    ensures Remembers(times + [now], LastOf(kept + [now], HISTORY), now)
  {
    var all, h := times + [now], LastOf(kept + [now], HISTORY);
    assert kept + [now] == all[|times| - |kept|..];
    if |kept| < HISTORY {
      assert all[..|all| - |h|] == times[..|times| - |kept|];
    } else {
      assert h == all[|all| - HISTORY..];
    }
  }

  lemma {:induction false} RunsAreRecorded(passes: seq<Pass>)
    requires ClockRuns(passes)
    ensures Recorded(StrongTimes(passes), After(passes), if passes == [] then 0 else passes[|passes| - 1].at)
    ensures Normalize(After(passes)) == After(passes)
    decreases |passes|
  {
    if passes != [] {
      var n := |passes| - 1;
      var before := if n == 0 then 0 else passes[n - 1].at;
      RunsAreRecorded(passes[..n]);
      NextIsRecorded(StrongTimes(passes[..n]), After(passes[..n]), before, passes[n].at, passes[n].strong);
    }
    RecordedIsNormal(StrongTimes(passes), After(passes), if passes == [] then 0 else passes[|passes| - 1].at);
  }

  /** The record answers the hourly question as the full list of strong passes would. */
  lemma RecordIsEnough(times: seq<nat>, history: seq<nat>, before: nat, now: nat, m: nat)
    requires Rising(times) && Remembers(times, history, before) && before <= now && 0 < m <= HISTORY
    ensures |Within(history, now, HOUR)| < m <==> |Within(times, now, HOUR)| < m
  {
    var d := |times| - |history|;
    assert times == times[..d] + history;
    WithinSplit(times[..d], history, now, HOUR);
    if |Within(history, now, HOUR)| < m && !AllOld(times[..d], before, DAY) {
      TailRises(times, d);
      var k := RecentIsATail(history, now, HOUR);
      assert k > 0 && history[..k][0] in history[..k];
      forall t | t in times[..d] ensures now - t >= HOUR {
        var i :| 0 <= i < d && times[i] == t;
        assert times[i] <= times[d] == history[0];
      }
      WithinNone(times[..d], now, HOUR);
    } else if AllOld(times[..d], before, DAY) {
      WithinNone(times[..d], now, HOUR);
    }
  }

  /** Room in the hour, and the gap to every strong pass so far. */
  ghost predicate Room(l: Limits, times: seq<nat>, now: nat) {
    && (l.maxPerHour > 0 ==> |Within(times, now, HOUR)| < l.maxPerHour)
    && (forall t <- times :: now >= t + l.minGapMinutes * MINUTE)
  }

  /**
   * The guard allows a strong pass exactly when fewer passes than the owner's number were completed in the last sixty
   * minutes, manual ones included, and each of them is at least the minimum gap ago: the day and the thousand entries
   * the record is cut to neither open the gate early nor keep it shut.
   */
  lemma GuardMeansRoom(l: Limits, passes: seq<Pass>, now: nat)
    requires ClockRuns(passes) && (passes != [] ==> now >= passes[|passes| - 1].at)
    ensures l.maxPerHour <= HISTORY ==>
              (AutomaticGuard(l, Normalize(After(passes)), now).Allowed? <==> Room(l, StrongTimes(passes), now))
    ensures AutomaticGuard(l, Normalize(After(passes)), now).Allowed? ==>
              forall t <- StrongTimes(passes) :: now >= t + l.minGapMinutes * MINUTE
  {
    hide After, StrongTimes, Within, Normalize, Recorded, AutomaticGuard, ClockRuns, GapIsOver, HourHasRoom;
    RunsAreRecorded(passes);
    var before := if passes == [] then 0 else passes[|passes| - 1].at;
    if l.maxPerHour <= HISTORY { RecordMeansRoom(l, StrongTimes(passes), After(passes), before, now); }
    RecordMeansGap(l, StrongTimes(passes), After(passes), before, now);
    GuardSplits(l, After(passes), now);
  }

  predicate GapIsOver(l: Limits, rt: Runtime, now: nat) {
    l.minGapMinutes > 0 && rt.lastStrongAt > 0 ==> now >= rt.lastStrongAt + l.minGapMinutes * MINUTE
  }

  predicate HourHasRoom(l: Limits, rt: Runtime, now: nat) {
    l.maxPerHour > 0 ==> |Within(rt.strongHistoryAt, now, HOUR)| < l.maxPerHour
  }

  lemma GuardSplits(l: Limits, rt: Runtime, now: nat)
    ensures AutomaticGuard(l, rt, now).Allowed? <==> GapIsOver(l, rt, now) && HourHasRoom(l, rt, now)
  {
  }

  lemma RecordMeansRoom(l: Limits, times: seq<nat>, rt: Runtime, before: nat, now: nat)
    requires l.maxPerHour <= HISTORY && Recorded(times, rt, before) && before <= now
    ensures HourHasRoom(l, rt, now) <==> (l.maxPerHour > 0 ==> |Within(times, now, HOUR)| < l.maxPerHour)
  {
    if l.maxPerHour > 0 { RecordIsEnough(times, rt.strongHistoryAt, before, now, l.maxPerHour); }
  }

  lemma RecordMeansGap(l: Limits, times: seq<nat>, rt: Runtime, before: nat, now: nat)
    requires Recorded(times, rt, before) && before <= now
    ensures GapIsOver(l, rt, now) <==> forall t <- times :: now >= t + l.minGapMinutes * MINUTE
  {
    hide Remembers, Within;
    if times != [] {
      var last := times[|times| - 1];
      assert last in times;
      forall t | t in times ensures t <= last <= before {
        var i :| 0 <= i < |times| && times[i] == t;
      }
    }
  }

  lemma PrefixRuns(passes: seq<Pass>, k: nat)
    requires ClockRuns(passes) && k < |passes|
    ensures ClockRuns(passes[..k]) && (k > 0 ==> passes[k].at >= passes[..k][k - 1].at)
  {
  }

  /** An automatic strong pass that completed found less than the owner's number completed in the hour before it. */
  lemma HourlyLimitHolds(l: Limits, passes: seq<Pass>, k: nat)
    requires LimitsValid(l) && l.maxPerHour > 0 && ClockRuns(passes) && Guarded(l, passes)
    requires k < |passes| && passes[k].strong && !passes[k].manual
    ensures |Within(StrongTimes(passes[..k]), passes[k].at, HOUR)| < l.maxPerHour
  {
    PrefixRuns(passes, k);
    GuardMeansRoom(l, passes[..k], passes[k].at);
  }

  /** Strong passes with nobody asking keep the minimum gap to the ones before. */
  lemma MinGapHolds(l: Limits, passes: seq<Pass>, k: nat)
    requires ClockRuns(passes) && Guarded(l, passes) && k < |passes| && passes[k].strong && !passes[k].manual
    ensures forall t <- StrongTimes(passes[..k]) :: passes[k].at >= t + l.minGapMinutes * MINUTE
  {
    PrefixRuns(passes, k);
    GuardMeansRoom(l, passes[..k], passes[k].at);
  }

  /** Without manual passes no sixty minutes, wherever they end, hold more strong passes than the owner allows. */
  lemma {:induction false} AnyHourHolds(l: Limits, passes: seq<Pass>, now: nat)
    requires LimitsValid(l) && l.maxPerHour > 0 && ClockRuns(passes) && Guarded(l, passes)
    requires forall p <- passes :: !p.manual
    requires passes != [] ==> now >= passes[|passes| - 1].at
    ensures |Within(StrongTimes(passes), now, HOUR)| <= l.maxPerHour
    decreases |passes|
  {
    if passes != [] {
      var n := |passes| - 1;
      GuardedPrefix(l, passes, n);
      if passes[n].strong {
        assert passes[n] in passes;
        HourlyLimitHolds(l, passes, n);
        WithinSplit(StrongTimes(passes[..n]), [passes[n].at], now, HOUR);
        WithinShrinks(StrongTimes(passes[..n]), passes[n].at, now, HOUR);
      } else {
        assert StrongTimes(passes) == StrongTimes(passes[..n]);
        AnyHourHolds(l, passes[..n], now);
      }
    }
  }

  lemma GuardedPrefix(l: Limits, passes: seq<Pass>, n: nat)
    requires ClockRuns(passes) && Guarded(l, passes) && n <= |passes|
    ensures ClockRuns(passes[..n]) && Guarded(l, passes[..n])
  {
    forall k | 0 <= k < n ensures passes[..n][..k] == passes[..k] {}
  }

  lemma {:induction false} WithinShrinks(times: seq<nat>, now: nat, later: nat, age: nat)
    requires now <= later
    ensures |Within(times, later, age)| <= |Within(times, now, age)|
  {
    if times != [] { WithinShrinks(times[1..], now, later, age); }
  }

  lemma {:induction false} LeastIsLeast(times: seq<nat>)
    requires times != []
    ensures Least(times) in times && forall t <- times :: Least(times) <= t
  {
    if |times| > 1 {
      LeastIsLeast(times[1..]);
      assert times == [times[0]] + times[1..];
    }
  }

  lemma {:induction false} WithinMember(times: seq<nat>, now: nat, age: nat, t: nat)
    ensures t in Within(times, now, age) <==> t in times && now - t < age
  {
    if times != [] {
      WithinMember(times[1..], now, age, t);
      assert times == [times[0]] + times[1..];
    }
  }

  /** The retry time the guard names is never too late: until then it stays shut. */
  lemma ShutUntilRetry(l: Limits, rt: Runtime, now: nat, later: nat)
    requires !AutomaticGuard(l, rt, now).Allowed? && now <= later < AutomaticGuard(l, rt, now).retryAt
    ensures !AutomaticGuard(l, rt, later).Allowed?
  {
    var recent := Within(rt.strongHistoryAt, now, HOUR);
    if AutomaticGuard(l, rt, now).HourlyLimit? {
      LeastIsLeast(recent);
      RecentStays(rt.strongHistoryAt, now, later);
    }
  }

  /** Nor is it too early: at that time the gap is over, or a pass that counted has left the hour. */
  lemma RetryIsWorthwhile(l: Limits, rt: Runtime, now: nat)
    requires !AutomaticGuard(l, rt, now).Allowed?
    ensures var retryAt := AutomaticGuard(l, rt, now).retryAt;
            && retryAt > now
            && !AutomaticGuard(l, rt, retryAt).MinGap?
            && (AutomaticGuard(l, rt, now).HourlyLimit? ==>
                  |Within(rt.strongHistoryAt, retryAt, HOUR)| < |Within(rt.strongHistoryAt, now, HOUR)|)
  {
    if AutomaticGuard(l, rt, now).HourlyLimit? {
      var recent := Within(rt.strongHistoryAt, now, HOUR);
      LeastIsLeast(recent);
      WithinMember(rt.strongHistoryAt, now, HOUR, Least(recent));
      OneLeaves(rt.strongHistoryAt, now, Least(recent));
    }
  }

  /** Later than an hour after a recent entry fewer are recent. */
  lemma {:induction false} OneLeaves(times: seq<nat>, now: nat, t: nat)
    requires t in times && now - t < HOUR && now <= t + HOUR
    ensures |Within(times, t + HOUR, HOUR)| < |Within(times, now, HOUR)|
  {
    if times[0] == t {
      WithinShrinks(times[1..], now, t + HOUR, HOUR);
    } else {
      OneLeaves(times[1..], now, t);
    }
  }

  /** The record counts the runs and keeps the time of the first. */
  lemma {:induction false} RunsAreCounted(passes: seq<Pass>)
    requires ClockRuns(passes)
    ensures After(passes).requestCount == |passes|
    ensures After(passes).startedAt == if passes == [] then 0 else passes[0].at
    decreases |passes|
  {
    if passes != [] { RunsAreCounted(passes[..|passes| - 1]); }
  }

  lemma {:induction false} RecentStays(times: seq<nat>, now: nat, later: nat)
    requires now <= later && forall t <- Within(times, now, HOUR) :: later < t + HOUR
    ensures Within(times, later, HOUR) == Within(times, now, HOUR)
  {
    if times != [] {
      var rest := Within(times[1..], now, HOUR);
      forall t | t in rest ensures t in Within(times, now, HOUR) {}
      if now - times[0] < HOUR { assert times[0] in [times[0]] + rest; }
      RecentStays(times[1..], now, later);
    }
  }
}
