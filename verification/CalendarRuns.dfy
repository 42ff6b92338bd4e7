/** What a calendar does over whole runs, whatever the wake times and however the clock moves. */
module CalendarRuns {
  import opened Common
  import opened Calendar
  import opened CalendarRuntime

  // --------------------------------------------- catch-up delivers all

  /** The slot just before x in the enumeration. */
  lemma {:induction false} Predecessor(s: Schedule, x: Slot) returns (y: Slot)
    requires Normal(s) && Occurs(s, x) && Ordinal(s, x) > 1
    ensures Occurs(s, y) && Before(y, x) && Ordinal(s, y) == Ordinal(s, x) - 1
  {
    if x.index > 0 {
      y := Slot(x.day, x.index - 1);
    } else {
      var d := x.day - 1;
      while !Selected(s, d)
        invariant s.startDate <= d < x.day
        invariant CountDays(s, s.startDate, d + 1) == CountDays(s, s.startDate, x.day)
        decreases d - s.startDate
      {
        assert CountDays(s, s.startDate, s.startDate) == 0;
        d := d - 1;
      }
      y := Slot(d, |s.times| - 1);
      RowsApart(CountDays(s, s.startDate, d), CountDays(s, s.startDate, x.day), |s.times|);
    }
  }

  lemma SameOrdinalSameSlot(s: Schedule, a: Slot, b: Slot)
    requires IsSlot(s, a) && IsSlot(s, b) && Ordinal(s, a) == Ordinal(s, b)
    ensures a == b
  {
    if Before(a, b) { OrdinalIncreases(s, a, b); }
    if Before(b, a) { OrdinalIncreases(s, b, a); }
  }

  /**
   * A catch-up run: whenever an occurrence is delivered it is what the calendar answers for the cursor left by the
   * one before, the first for the cursor the session starts with, if it has one. Wakes that deliver nothing change
   * nothing.
   */
  ghost predicate CatchUpRun(ses: Session, start: Runtime, deliveries: seq<Delivery>) {
    && ses.schedule.catchUp && UniqueRevisions(start.cursors)
    && (forall k | 0 <= k < |deliveries| ::
          Delivers(ses, deliveries[k]) && deliveries[k].before == RuntimeBefore(start, deliveries, k))
  }

  /** The runtime after the first k deliveries. */
  function RuntimeBefore(start: Runtime, deliveries: seq<Delivery>, k: nat): Runtime
    requires k <= |deliveries|
  {
    if k == 0 then start else deliveries[k - 1].after
  }

  datatype Delivery = Delivery(before: Runtime, slot: Slot, id: Text, now: int, protectedRevisions: set<Revision>, after: Runtime)

  ghost predicate Delivers(ses: Session, d: Delivery) {
    && d.slot.index < |ses.schedule.times| && EpochOf(ses.schedule, d.slot).Some?
    && IsNext(ses.schedule, CursorOf(ses, d.before), d.now, Ok(Some(d.slot)))
    && Committed(d.before, Occurrence(d.id, ses.revision, d.slot, EpochOf(ses.schedule, d.slot).value), d.protectedRevisions, d.after)
  }

  lemma DeliveryMovesCursor(ses: Session, d: Delivery)
    requires Normal(ses.schedule) && UniqueRevisions(d.before.cursors) && ses.schedule.catchUp && Delivers(ses, d)
    ensures UniqueRevisions(d.after.cursors) && d.slot.index < |ses.schedule.times|
    ensures CursorOf(ses, d.after) == EpochOf(ses.schedule, d.slot)
  {
    var o := Occurrence(d.id, ses.revision, d.slot, EpochOf(ses.schedule, d.slot).value);
    assert NotBefore(CursorOf(ses, d.before), EpochOf(ses.schedule, d.slot));
    CommitKeepsCursors(d.before, o, d.protectedRevisions, d.after, ses.revision);
  }

  /** Each delivery leaves the cursor exactly at the instant delivered. */
  lemma {:induction false} CursorAfter(ses: Session, start: Runtime, deliveries: seq<Delivery>, k: nat)
    requires Normal(ses.schedule) && CatchUpRun(ses, start, deliveries) && k < |deliveries|
    ensures UniqueRevisions(deliveries[k].before.cursors) && UniqueRevisions(deliveries[k].after.cursors)
    ensures deliveries[k].slot.index < |ses.schedule.times|
    ensures CursorOf(ses, deliveries[k].after) == EpochOf(ses.schedule, deliveries[k].slot)
    ensures k > 0 ==> deliveries[k].before == deliveries[k - 1].after
  {
    hide Delivers, CursorOf, Normal, UniqueRevisions, EpochOf;
    assert Delivers(ses, deliveries[k]) && deliveries[k].before == RuntimeBefore(start, deliveries, k);
    if k > 0 { CursorAfter(ses, start, deliveries, k - 1); }
    DeliveryMovesCursor(ses, deliveries[k]);
  }

  /** What a starting cursor rules out: slots at or before it. A slot without an instant is not looked at there. */
  predicate Passed(s: Schedule, cursor: Option<int>, x: Slot)
    requires x.index < |s.times|
  {
    cursor.Some? && (EpochOf(s, x).Some? ==> EpochOf(s, x).value <= cursor.value)
  }

  lemma SkippedIsPassed(s: Schedule, cursor: Option<int>, now: int, x: Slot)
    requires Normal(s) && ZoneLaws(s.zone) && s.catchUp && Occurs(s, x)
    requires SearchDateOf(s, FloorOf(s, cursor, now)) <= x.day ==> Skipped(s, FloorOf(s, cursor, now), x)
    ensures Passed(s, cursor, x)
  {
    if cursor.None? {
      NothingBeforeMinusInfinity(s, x);
    } else if EpochOf(s, x).Some? && s.zone.localDate(cursor.value + 1) > x.day {
      EarlierDateEarlierInstant(s.zone, x.day, s.times[x.index], cursor.value + 1);
    }
  }

  /** Nothing before the slot the calendar answers, or nothing at all when it answers none, lies past the cursor. */
  lemma BeforeNextIsPassed(s: Schedule, cursor: Option<int>, now: int, next: Option<Slot>, x: Slot)
    requires Normal(s) && ZoneLaws(s.zone) && s.catchUp && IsNext(s, cursor, now, Ok(next))
    requires Occurs(s, x) && (next.Some? ==> Before(x, next.value))
    ensures Passed(s, cursor, x)
  {
    SkippedIsPassed(s, cursor, now, x);
  }

  lemma FirstOfAll(s: Schedule, x: Slot)
    requires Normal(s) && IsFirst(s, s.startDate, None, Ok(Some(x)))
    ensures Ordinal(s, x) == 1
  {
    if Ordinal(s, x) > 1 {
      var y := Predecessor(s, x);
      NothingBeforeMinusInfinity(s, y);
    }
  }

  lemma NothingBeforeMinusInfinity(s: Schedule, y: Slot)
    requires y.index < |s.times|
    ensures !Skipped(s, None, y)
  {
  }

  /** Searching from just after one slot finds the next one of the enumeration. */
  lemma FirstAfter(s: Schedule, last: Slot, x: Slot)
    requires Normal(s) && ZoneLaws(s.zone) && Occurs(s, last) && EpochOf(s, last).Some?
    requires var floor := Some(EpochOf(s, last).value + 1);
             IsFirst(s, SearchDateOf(s, floor), floor, Ok(Some(x)))
    ensures Ordinal(s, x) == Ordinal(s, last) + 1
  {
    var epoch := EpochOf(s, last).value;
    if !Before(last, x) && x != last { EpochIncreases(s, x, last); }
    assert Before(last, x);
    OrdinalIncreases(s, last, x);
    if Ordinal(s, x) > Ordinal(s, last) + 1 {
      var y := Predecessor(s, x);
      if Before(y, last) { OrdinalIncreases(s, y, last); }
      assert Before(last, y);
      NextInstantSameDate(s.zone, last.day, s.times[last.index]);
      assert Skipped(s, Some(epoch + 1), y);
      EpochIncreases(s, last, y);
    }
  }

  lemma NextInEnumeration(ses: Session, d: Delivery, last: Slot)
    requires Normal(ses.schedule) && ZoneLaws(ses.schedule.zone) && ses.schedule.catchUp && Delivers(ses, d)
    requires Occurs(ses.schedule, last) && EpochOf(ses.schedule, last).Some?
    requires CursorOf(ses, d.before) == EpochOf(ses.schedule, last)
    ensures Occurs(ses.schedule, d.slot) && Ordinal(ses.schedule, d.slot) == Ordinal(ses.schedule, last) + 1
  {
    FirstAfter(ses.schedule, last, d.slot);
  }

  /**
   * With catch-up on, the deliveries are consecutive slots of the enumeration, whatever the wake times: none is
   * skipped, none comes twice, and the order is kept. The first of them is the first slot past the cursor the
   * session started with, and the very first slot if there was none.
   */
  lemma {:induction false} CatchUpDeliversInOrder(ses: Session, start: Runtime, deliveries: seq<Delivery>, k: nat)
    requires Normal(ses.schedule) && ZoneLaws(ses.schedule.zone)
    requires CatchUpRun(ses, start, deliveries) && k < |deliveries|
    ensures Occurs(ses.schedule, deliveries[0].slot) && Occurs(ses.schedule, deliveries[k].slot)
    ensures Ordinal(ses.schedule, deliveries[k].slot) == Ordinal(ses.schedule, deliveries[0].slot) + k
    ensures !Passed(ses.schedule, CursorOf(ses, start), deliveries[0].slot)
    ensures forall x | Occurs(ses.schedule, x) && Before(x, deliveries[0].slot) :: Passed(ses.schedule, CursorOf(ses, start), x)
    ensures CursorOf(ses, start).None? ==> Ordinal(ses.schedule, deliveries[0].slot) == 1
  {
    hide Delivers, CursorOf, Normal, UniqueRevisions, Passed, Occurs, Ordinal, Before;
    assert Delivers(ses, deliveries[k]) && deliveries[k].before == RuntimeBefore(start, deliveries, k);
    if k == 0 {
      FirstDelivery(ses, start, deliveries[0]);
    } else {
      CatchUpDeliversInOrder(ses, start, deliveries, k - 1);
      DeliveredResolves(ses, deliveries[k - 1]);
      CursorAfter(ses, start, deliveries, k - 1);
      CursorAfter(ses, start, deliveries, k);
      NextInEnumeration(ses, deliveries[k], deliveries[k - 1].slot);
    }
  }

  lemma DeliveredResolves(ses: Session, d: Delivery)
    requires Delivers(ses, d)
    ensures d.slot.index < |ses.schedule.times| && EpochOf(ses.schedule, d.slot).Some?
  {
  }

  lemma FirstDelivery(ses: Session, start: Runtime, d: Delivery)
    requires Normal(ses.schedule) && ZoneLaws(ses.schedule.zone) && ses.schedule.catchUp && Delivers(ses, d)
    requires d.before == start
    ensures Occurs(ses.schedule, d.slot) && !Passed(ses.schedule, CursorOf(ses, start), d.slot)
    ensures forall x | Occurs(ses.schedule, x) && Before(x, d.slot) :: Passed(ses.schedule, CursorOf(ses, start), x)
    ensures CursorOf(ses, start).None? ==> Ordinal(ses.schedule, d.slot) == 1
  {
    forall x | Occurs(ses.schedule, x) && Before(x, d.slot) ensures Passed(ses.schedule, CursorOf(ses, start), x) {
      BeforeNextIsPassed(ses.schedule, CursorOf(ses, start), d.now, Some(d.slot), x);
    }
    if CursorOf(ses, start).None? { FirstOfAll(ses.schedule, d.slot); }
  }

  lemma NothingAfter(s: Schedule, last: Slot, x: Slot)
    requires Normal(s) && ZoneLaws(s.zone) && Occurs(s, last) && EpochOf(s, last).Some? && Occurs(s, x)
    requires var floor := Some(EpochOf(s, last).value + 1); IsFirst(s, SearchDateOf(s, floor), floor, Ok(None))
    ensures Ordinal(s, x) <= Ordinal(s, last)
  {
    if Before(x, last) {
      OrdinalIncreases(s, x, last);
    } else if Before(last, x) {
      NextInstantSameDate(s.zone, last.day, s.times[last.index]);
      assert Skipped(s, Some(EpochOf(s, last).value + 1), x);
      EpochIncreases(s, last, x);
    }
  }

  /** Once the calendar says it is exhausted, nothing of the enumeration lies after the last delivery. */
  lemma ExhaustedAfterLast(ses: Session, last: Slot, cursor: Option<int>, now: int, x: Slot)
    requires Normal(ses.schedule) && ZoneLaws(ses.schedule.zone) && ses.schedule.catchUp
    requires Occurs(ses.schedule, last) && EpochOf(ses.schedule, last).Some? && cursor == EpochOf(ses.schedule, last)
    requires IsNext(ses.schedule, cursor, now, Ok(None)) && Occurs(ses.schedule, x)
    ensures Ordinal(ses.schedule, x) <= Ordinal(ses.schedule, last)
  {
    NothingAfter(ses.schedule, last, x);
  }

  /**
   * When the calendar says it is exhausted, after any number of deliveries from any cursor, every slot of the
   * enumeration was delivered or lies at or before the cursor the session started with.
   */
  lemma ExhaustedMeansAllDelivered(ses: Session, start: Runtime, deliveries: seq<Delivery>, now: int, x: Slot)
    requires Normal(ses.schedule) && ZoneLaws(ses.schedule.zone) && CatchUpRun(ses, start, deliveries)
    requires IsNext(ses.schedule, CursorOf(ses, RuntimeBefore(start, deliveries, |deliveries|)), now, Ok(None))
    requires Occurs(ses.schedule, x)
    ensures Passed(ses.schedule, CursorOf(ses, start), x) || exists d <- deliveries :: d.slot == x
  {
    if deliveries == [] {
      BeforeNextIsPassed(ses.schedule, CursorOf(ses, start), now, None, x);
    } else {
      var n := |deliveries| - 1;
      assert Delivers(ses, deliveries[n]);
      CursorAfter(ses, start, deliveries, n);
      CatchUpDeliversInOrder(ses, start, deliveries, n);
      ExhaustedAfterLast(ses, deliveries[n].slot, CursorOf(ses, deliveries[n].after), now, x);
      if !Before(x, deliveries[0].slot) { DeliveredAt(ses, start, deliveries, x); }
    }
  }

  lemma DeliveredAt(ses: Session, start: Runtime, deliveries: seq<Delivery>, x: Slot)
    requires Normal(ses.schedule) && ZoneLaws(ses.schedule.zone) && CatchUpRun(ses, start, deliveries) && deliveries != []
    requires IsSlot(ses.schedule, x) && IsSlot(ses.schedule, deliveries[0].slot) && !Before(x, deliveries[0].slot)
    requires Ordinal(ses.schedule, x) < Ordinal(ses.schedule, deliveries[0].slot) + |deliveries|
    ensures exists d <- deliveries :: d.slot == x
  {
    var first := deliveries[0].slot;
    if Before(first, x) { OrdinalIncreases(ses.schedule, first, x); }
    var k := Ordinal(ses.schedule, x) - Ordinal(ses.schedule, first);
    CatchUpDeliversInOrder(ses, start, deliveries, k);
    SameOrdinalSameSlot(ses.schedule, x, deliveries[k].slot);
    assert deliveries[k] in deliveries;
  }

  // ------------------------------------------------ cursors never regress

  predicate NotBefore(a: Option<int>, b: Option<int>) {
    a.None? || (b.Some? && a.value <= b.value)
  }

  /** The cursor still comes from the older hash scheme. */
  predicate OnLegacyCursor(ses: Session, rt: Runtime) {
    Lookup(rt.cursors, ses.revision).None? && rt.recurrenceRevision != Some(ses.revision) && CursorOf(ses, rt).Some?
  }

  /** Skipping a backlog keeps the cursor from going back, unless a legacy cursor already reached `now`. */
  lemma SkipKeepsCursor(ses: Session, rt: Runtime, missed: Occurrence, now: int, protectedRevisions: set<Revision>, rt': Runtime)
    requires Normal(ses.schedule) && ZoneLaws(ses.schedule.zone) && UniqueRevisions(rt.cursors)
    requires ses.revision != ses.legacyRevision
    requires Missed(ses, rt, now, missed) && Reconciled(ses, rt, missed, now, protectedRevisions, rt')
    ensures CursorOf(ses, rt') == Some(now - 1)
    ensures NotBefore(CursorOf(ses, rt), CursorOf(ses, rt'))
            <==> (OnLegacyCursor(ses, rt) ==> CursorOf(ses, rt).value < now)
  {
    var committed: Runtime :| Committed(rt, missed, protectedRevisions, committed)
                              && rt' == SkippedRuntime(ses, committed, missed, now);
    StoreThenLookup(committed.cursors, ses.revision, Max(missed.scheduledAt, now - 1), ses.revision);
    if CursorOf(ses, rt).Some? && !OnLegacyCursor(ses, rt) {
      var direct := Lookup(rt.cursors, ses.revision);
      var cursor := if direct.Some? then direct else OwnCursor(rt, ses.revision);
      StoreThenLookup(rt.cursors, ses.probeRevision, cursor.value, ses.probeRevision);
      assert ProbeCursor(ses, rt, now) == cursor == CursorOf(ses, rt);
    }
  }

  /** An occurrence an admission handed out earlier, still waiting to be committed. */
  ghost predicate Issued(ses: Session, rt: Runtime, issued: set<Occurrence>) {
    forall o <- issued ::
      && o.revision == ses.revision
      && (Lookup(rt.cursors, ses.revision).None? && CursorOf(ses, rt).Some? ==> o.scheduledAt > CursorOf(ses, rt).value)
  }

  datatype Step =
    | Admit(o: Occurrence)
    | Commit(o: Occurrence, protectedRevisions: set<Revision>)
    | Skip(missed: Occurrence, now: int, protectedRevisions: set<Revision>)

  datatype State = State(rt: Runtime, issued: set<Occurrence>)

  /** Admissions, commits and skips in any order, at any clock reading. */
  ghost predicate CanStep(ses: Session, a: State, step: Step, b: State) {
    match step
    case Admit(o) =>
      && b.rt == a.rt && b.issued == a.issued + {o} && o.revision == ses.revision
      && o.slot.index < |ses.schedule.times| && EpochOf(ses.schedule, o.slot) == Some(o.scheduledAt)
      && exists now: int :: IsNext(ses.schedule, CursorOf(ses, a.rt), now, Ok(Some(o.slot)))
    case Commit(o, protectedRevisions) =>
      && o in a.issued && b.issued == a.issued && Committed(a.rt, o, protectedRevisions, b.rt)
    case Skip(missed, now, protectedRevisions) =>
      && b.issued == a.issued && Missed(ses, a.rt, now, missed)
      && Reconciled(ses, a.rt, missed, now, protectedRevisions, b.rt)
  }

  ghost predicate Inv(ses: Session, st: State) {
    UniqueRevisions(st.rt.cursors) && Issued(ses, st.rt, st.issued)
  }

  lemma SkipKeepsInv(ses: Session, a: State, missed: Occurrence, now: int, protectedRevisions: set<Revision>, b: State)
    requires Normal(ses.schedule) && ZoneLaws(ses.schedule.zone) && ses.revision != ses.legacyRevision
    requires Inv(ses, a) && CanStep(ses, a, Skip(missed, now, protectedRevisions), b)
    requires OnLegacyCursor(ses, a.rt) ==> CursorOf(ses, a.rt).value < now
    ensures Inv(ses, b) && NotBefore(CursorOf(ses, a.rt), CursorOf(ses, b.rt))
  {
    SkipKeepsCursor(ses, a.rt, missed, now, protectedRevisions, b.rt);
    hide Normal, ZoneLaws, Missed, RevisionCursor, OnLegacyCursor, Bounded;
    var committed: Runtime :| Committed(a.rt, missed, protectedRevisions, committed)
                              && b.rt == SkippedRuntime(ses, committed, missed, now);
    CommitKeepsCursors(a.rt, missed, protectedRevisions, committed, ses.revision);
    StoreKeepsUnique(committed.cursors, ses.revision, Max(missed.scheduledAt, now - 1));
    StoreThenLookup(committed.cursors, ses.revision, Max(missed.scheduledAt, now - 1), ses.revision);
  }

  lemma StepKeepsCursor(ses: Session, a: State, step: Step, b: State)
    requires Normal(ses.schedule) && ZoneLaws(ses.schedule.zone) && ses.revision != ses.legacyRevision
    requires Inv(ses, a) && CanStep(ses, a, step, b)
    requires step.Skip? && OnLegacyCursor(ses, a.rt) ==> CursorOf(ses, a.rt).value < step.now
    ensures Inv(ses, b) && NotBefore(CursorOf(ses, a.rt), CursorOf(ses, b.rt))
  {
    match step
    case Admit(o) =>
      var now: int :| IsNext(ses.schedule, CursorOf(ses, a.rt), now, Ok(Some(o.slot)));
    case Commit(o, protectedRevisions) =>
      CommitKeepsCursors(a.rt, o, protectedRevisions, b.rt, ses.revision);
    case Skip(missed, now, protectedRevisions) =>
      SkipKeepsInv(ses, a, missed, now, protectedRevisions, b);
  }

  ghost predicate Run(ses: Session, states: seq<State>, steps: seq<Step>) {
    && |states| == |steps| + 1
    && forall k | 0 <= k < |steps| ::
         && CanStep(ses, states[k], steps[k], states[k + 1])
         && (steps[k].Skip? && OnLegacyCursor(ses, states[k].rt) ==> CursorOf(ses, states[k].rt).value < steps[k].now)
  }

  /** Over a whole run, with a clock that may jump either way, the active revision's cursor only advances. */
  lemma {:induction false} CursorNeverRegresses(ses: Session, states: seq<State>, steps: seq<Step>, i: nat, j: nat)
    requires Normal(ses.schedule) && ZoneLaws(ses.schedule.zone) && ses.revision != ses.legacyRevision
    requires Run(ses, states, steps) && UniqueRevisions(states[0].rt.cursors) && states[0].issued == {}
    requires i <= j < |states|
    ensures Inv(ses, states[j]) && NotBefore(CursorOf(ses, states[i].rt), CursorOf(ses, states[j].rt))
    decreases j
  {
    if j > 0 {
      CursorNeverRegresses(ses, states, steps, if i < j then i else j - 1, j - 1);
      StepKeepsCursor(ses, states[j - 1], steps[j - 1], states[j]);
    }
  }

  /** A zone on universal time. */
  function UtcZone(): Zone {
    Zone((d: int, t: int) => if 0 <= t < 86400 then Some(d * 86400000 + t * 1000) else None, (e: int) => e / 86400000)
  }

  const CURRENT: Revision := [2]
  const LEGACY: Revision := [1]
  const PROBE: Revision := [3]

  function LegacySession(): Session {
    Session(Schedule(DAILY, UtcZone(), false, 0, [], [0], None, None), CURRENT, LEGACY, PROBE, [4])
  }

  /** Upgraded with its only cursor under the older hash, at `now`. */
  function LegacyRuntime(now: int): Runtime {
    Runtime([], [Cursor(LEGACY, now)], Some(LEGACY), Some(now))
  }

  function LegacyCommitted(now: int): Runtime {
    Runtime([[]], [Cursor(LEGACY, now), Cursor(CURRENT, 0)], Some(CURRENT), Some(0))
  }

  lemma LegacyCommits(now: int)
    ensures Committed(LegacyRuntime(now), Occurrence([], CURRENT, Slot(0, 0), 0), {}, LegacyCommitted(now))
  {
    var cursors := LegacyRuntime(now).cursors;
    assert LEGACY[0] != CURRENT[0];
    assert cursors[1..] == [];
    assert Lookup(cursors, CURRENT) == Lookup([], CURRENT) == None;
    assert Store(cursors, CURRENT, 0) == [cursors[0]] + Store([], CURRENT, 0) == LegacyCommitted(now).cursors;
  }

  lemma LegacyProbe(now: int)
    ensures ProbeCursor(LegacySession(), LegacyRuntime(now), now) == Some(now - DAILY_PROBE_LOOKBACK_MS)
    ensures CursorOf(LegacySession(), LegacyRuntime(now)) == Some(now)
    ensures OnLegacyCursor(LegacySession(), LegacyRuntime(now))
  {
    var cursors := LegacyRuntime(now).cursors;
    assert LEGACY[0] != CURRENT[0];
    assert cursors[1..] == [];
    assert Lookup(cursors, CURRENT) == Lookup([], CURRENT) == None;
    StoreThenLookup(cursors, PROBE, now - DAILY_PROBE_LOOKBACK_MS, PROBE);
  }

  lemma LegacyMisses(now: int)
    requires now == 86400005
    ensures Missed(LegacySession(), LegacyRuntime(now), now, Occurrence([], CURRENT, Slot(0, 0), 0))
    ensures UniqueRevisions(LegacyRuntime(now).cursors) && LegacySession().revision != LegacySession().legacyRevision
  {
    LegacyProbe(now);
    hide Lookup, Store;
    assert LEGACY[0] != CURRENT[0];
  }

  lemma LegacyLaws()
    ensures Normal(LegacySession().schedule) && ZoneLaws(LegacySession().schedule.zone)
  {
  }

  /**
   * The exception is real: a daily schedule from day 0 with catch-up off, read through a legacy cursor that has
   * reached 00:00:00.005 of day 1. Admission at that very instant moves the cursor back by one millisecond.
   */
  lemma LegacyCursorRegresses() returns (missed: Occurrence, rt': Runtime)
    ensures var (ses, now) := (LegacySession(), 86400005);
            && Normal(ses.schedule) && ZoneLaws(ses.schedule.zone) && ses.revision != ses.legacyRevision
            && UniqueRevisions(LegacyRuntime(now).cursors)
            && Missed(ses, LegacyRuntime(now), now, missed)
            && Reconciled(ses, LegacyRuntime(now), missed, now, {}, rt')
            && CursorOf(ses, LegacyRuntime(now)) == Some(now) && CursorOf(ses, rt') == Some(now - 1)
  {
    var now := 86400005;
    missed := Occurrence([], CURRENT, Slot(0, 0), 0);
    LegacyCommits(now);
    LegacyProbe(now);
    rt' := SkippedRuntime(LegacySession(), LegacyCommitted(now), missed, now);
    LegacyLaws();
    LegacyMisses(now);
    hide Lookup, Store, ZoneLaws, Normal, Missed, LegacySession, LegacyRuntime, LegacyCommitted, Committed;
    assert LEGACY[0] != CURRENT[0];
    SkipKeepsCursor(LegacySession(), LegacyRuntime(now), missed, now, {}, rt');
  }
}
