/** What the next slot is, and why looking back three days, or nine for a weekly schedule, shows every backlog. */
module CalendarLookback {
  import opened Common
  import opened Calendar
  import opened CalendarRuntime

  const DAY_MS: int := 86400000

  /** In k elapsed days the local date moves on by at least k - 1, whatever the clock changes. */
  predicate DaysPass(z: Zone, now: int, k: nat) {
    z.localDate(now - k * DAY_MS) <= z.localDate(now) - (k - 1)
  }

  /** Earlier than now, however long ago. */
  predicate Earlier(s: Schedule, now: int, x: Slot) {
    Occurs(s, x) && EpochOf(s, x).Some? && EpochOf(s, x).value < now
  }

  /** The last day before today's local date that falls on the weekday of this one. */
  function RecentDay(s: Schedule, now: int, day: int): int {
    var today := s.zone.localDate(now);
    if s.kind.DAILY? then today - 1 else today - 7 + (day - today) % 7
  }

  lemma RecentDayIsSelected(s: Schedule, now: int, day: int)
    requires Selected(s, day)
    ensures Selected(s, RecentDay(s, now, day))
    ensures s.zone.localDate(now) - (if s.kind.DAILY? then 1 else 7) <= RecentDay(s, now, day) < s.zone.localDate(now)
  {
    if s.kind.WEEKLY? {
      var today := s.zone.localDate(now);
      var recent := RecentDay(s, now, day);
      assert recent - day == 7 * ((recent - day) / 7);
      assert IsoWeekday(recent) == IsoWeekday(day);
    }
  }

  lemma DateOfInstant(z: Zone, d: int, t: int, f: int)
    requires ZoneLaws(z) && z.resolve(d, t).Some? && z.resolve(d, t).value <= f
    ensures d <= z.localDate(f)
  {
  }

  lemma SlotInLookback(s: Schedule, now: int, x: Slot, days: nat) returns (y: Slot)
    requires Normal(s) && ZoneLaws(s.zone) && s.endDate.None? && s.maxOccurrences.None? && Earlier(s, now, x)
    requires forall z | Occurs(s, z) :: EpochOf(s, z).Some?
    requires days == (if s.kind.DAILY? then 3 else 9) && DaysPass(s.zone, now, days)
    ensures Earlier(s, now, y) && EpochOf(s, y).value > now - days * DAY_MS
  {
    if EpochOf(s, x).value > now - days * DAY_MS {
      y := x;
    } else {
      var start := now - days * DAY_MS;
      RecentDayIsSelected(s, now, x.day);
      y := Slot(RecentDay(s, now, x.day), x.index);
      DateOfInstant(s.zone, x.day, s.times[x.index], start);
      assert Occurs(s, y);
      EarlierDateEarlierInstant(s.zone, y.day, s.times[y.index], now);
      LaterDateLaterInstant(s.zone, y.day, s.times[y.index], start);
    }
  }

  /**
   * An unbounded schedule without a cursor, all of whose slots resolve, has a backlog exactly if any slot at all lies
   * before now.
   */
  lemma LookbackLosesNothing(ses: Session, rt: Runtime, now: int)
    requires Normal(ses.schedule) && ZoneLaws(ses.schedule.zone)
    requires ses.schedule.endDate.None? && ses.schedule.maxOccurrences.None?
    requires Lookup(rt.cursors, ses.revision).None? && (rt.recurrenceRevision == Some(ses.revision) ==> rt.reconciledThrough.None?)
    requires forall z | Occurs(ses.schedule, z) :: EpochOf(ses.schedule, z).Some?
    requires DaysPass(ses.schedule.zone, now, if ses.schedule.kind.DAILY? then 3 else 9)
    ensures Backlog(ses, rt, now) <==> exists x :: Earlier(ses.schedule, now, x)
  {
    if x :| Earlier(ses.schedule, now, x) {
      var y := SlotInLookback(ses.schedule, now, x, if ses.schedule.kind.DAILY? then 3 else 9);
      assert MissedSlot(ses, rt, now, y);
    }
    if x :| MissedSlot(ses, rt, now, x) { assert Earlier(ses.schedule, now, x); }
  }

  /** A backlog is skipped once: at the same instant the next admission finds none. */
  lemma SkippedOnce(ses: Session, rt: Runtime, now: int)
    requires StartingBound(ses, rt, now) == Some(now - 1)
    ensures !Backlog(ses, rt, now)
  {
  }

  // ------------------------------------------------------- the next slot

  /** A slot that may come next: past the cursor, and with catch-up off not before now. */
  predicate Wanted(s: Schedule, cursor: Option<int>, now: int, x: Slot) {
    && Occurs(s, x) && EpochOf(s, x).Some?
    && (cursor.Some? ==> EpochOf(s, x).value > cursor.value)
    && (!s.catchUp ==> EpochOf(s, x).value >= now)
  }

  lemma WantedIsFound(s: Schedule, cursor: Option<int>, now: int, x: Slot)
    requires Normal(s) && ZoneLaws(s.zone) && Wanted(s, cursor, now, x)
    ensures x.day >= SearchDateOf(s, FloorOf(s, cursor, now)) && !Skipped(s, FloorOf(s, cursor, now), x)
  {
    var floor := FloorOf(s, cursor, now);
    if floor.Some? { DateOfFloor(s.zone, x.day, s.times[x.index], floor.value); }
  }

  /** The calendar answers the first wanted slot, and nothing only if there is none. */
  lemma NextIsFirstWanted(s: Schedule, cursor: Option<int>, now: int, next: Option<Slot>)
    requires Normal(s) && ZoneLaws(s.zone) && IsNext(s, cursor, now, Ok(next))
    ensures next.Some? ==> Wanted(s, cursor, now, next.value)
    ensures forall x | Wanted(s, cursor, now, x) :: next.Some? && !Before(x, next.value)
  {
    forall x | Wanted(s, cursor, now, x) ensures next.Some? && !Before(x, next.value) { WantedIsFound(s, cursor, now, x); }
  }

  /** The first of January 1970 was a Thursday, and the days of a week follow each other. */
  lemma Weekdays(day: int)
    ensures IsoWeekday(0) == 4 && 1 <= IsoWeekday(day) <= 7
    ensures IsoWeekday(day + 1) == if IsoWeekday(day) == 7 then 1 else IsoWeekday(day) + 1
  {
  }
}
