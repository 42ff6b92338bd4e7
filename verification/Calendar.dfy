/**
 * The recurring calendar of src/core/calendar-schedule.js and src/core/calendar-runtime.js: dates are day
 * numbers, times are seconds of a day, and instants are epoch milliseconds.
 */
module Calendar {
  import opened Common

  // ---------------------------------------------------------------- zone

  /** `resolve` is None where a wall time does not exist or is ambiguous; the program throws there. */
  datatype Zone = Zone(resolve: (int, int) -> Option<int>, localDate: int -> int)

  predicate EarlierWall(d: int, t: int, d': int, t': int) { d < d' || (d == d' && t < t') }

  /**
   * What is asked of a time zone. The last three hold whenever a resolved wall time lies on its own local date
   * and local dates never go backwards; wall times are whole seconds, so the next millisecond is on the same date.
   */
  ghost predicate ZoneLaws(z: Zone) {
    && (forall d: int, t: int, d': int, t': int ::
          EarlierWall(d, t, d', t') && z.resolve(d, t).Some? && z.resolve(d', t').Some?
          ==> z.resolve(d, t).value < z.resolve(d', t').value)
    && (forall d: int, t: int, f: int :: z.resolve(d, t).Some? && z.localDate(f) > d ==> z.resolve(d, t).value < f)
    && (forall d: int, t: int, f: int :: z.resolve(d, t).Some? && d > z.localDate(f) ==> z.resolve(d, t).value > f)
    && (forall d: int, t: int :: z.resolve(d, t).Some? ==> z.localDate(z.resolve(d, t).value + 1) <= d)
  }

  lemma LaterDateLaterInstant(z: Zone, d: int, t: int, f: int)
    requires ZoneLaws(z) && z.resolve(d, t).Some? && d > z.localDate(f)
    ensures z.resolve(d, t).value > f
  {
  }

  lemma EarlierDateEarlierInstant(z: Zone, d: int, t: int, f: int)
    requires ZoneLaws(z) && z.resolve(d, t).Some? && z.localDate(f) > d
    ensures z.resolve(d, t).value < f
  {
  }

  lemma NextInstantSameDate(z: Zone, d: int, t: int)
    requires ZoneLaws(z) && z.resolve(d, t).Some?
    ensures z.localDate(z.resolve(d, t).value + 1) <= d
  {
  }

  // ------------------------------------------------------------ schedule

  datatype Kind = DAILY | WEEKLY

  datatype Schedule = Schedule(
    kind: Kind, zone: Zone, catchUp: bool, startDate: int, weekdays: seq<int>, times: seq<int>,
    endDate: Option<int>, maxOccurrences: Option<nat>)

  ghost predicate StrictlyAscending(s: seq<int>) {
    forall i, j | 0 <= i < j < |s| :: s[i] < s[j]
  }

  /** What normalization leaves: sorted unique times and weekdays, at least one of each, sane bounds. */
  ghost predicate Normal(s: Schedule) {
    && |s.times| > 0 && StrictlyAscending(s.times)
    && (s.kind.WEEKLY? ==>
          |s.weekdays| > 0 && StrictlyAscending(s.weekdays) && forall w <- s.weekdays :: 1 <= w <= 7)
    && (s.endDate.Some? ==> s.endDate.value >= s.startDate)
    && (s.maxOccurrences.Some? ==> s.maxOccurrences.value >= 1)
  }

  /** Monday is 1. Day 0, 1 January 1970, is a Thursday. */
  function IsoWeekday(day: int): int { (day + 3) % 7 + 1 }

  predicate Selected(s: Schedule, day: int) {
    s.kind.DAILY? || IsoWeekday(day) in s.weekdays
  }

  /** The naive count: selected days from `from` up to but not including `until`, one day at a time. */
  function CountDays(s: Schedule, from: int, until: int): nat
    decreases until - from
  {
    if until <= from then 0 else CountDays(s, from, until - 1) + if Selected(s, until - 1) then 1 else 0
  }

  lemma {:induction false} CountSplits(s: Schedule, from: int, mid: int, until: int)
    requires from <= mid <= until
    ensures CountDays(s, from, until) == CountDays(s, from, mid) + CountDays(s, mid, until)
    decreases until - mid
  {
    if mid < until { CountSplits(s, from, mid, until - 1); }
  }

  lemma {:induction false} DailyCount(s: Schedule, from: int, until: int)
    requires s.kind.DAILY? && from <= until
    ensures CountDays(s, from, until) == until - from
    decreases until - from
  {
    if from < until { DailyCount(s, from, until - 1); }
  }

  /** The weekdays up to k that the list selects. */
  function Upto(weekdays: seq<int>, k: nat): nat {
    if k == 0 then 0 else Upto(weekdays, k - 1) + if k in weekdays then 1 else 0
  }

  lemma {:induction false} UptoCountsPrefix(weekdays: seq<int>, n: nat, k: nat)
    requires StrictlyAscending(weekdays) && n <= |weekdays|
    requires forall i | 0 <= i < n :: 1 <= weekdays[i] <= k
    requires forall i | n <= i < |weekdays| :: weekdays[i] > k
    ensures Upto(weekdays, k) == n
    decreases k
  {
    if k > 0 {
      if n > 0 && weekdays[n - 1] == k {
        UptoCountsPrefix(weekdays, n - 1, k - 1);
      } else {
        forall i | 0 <= i < |weekdays| ensures weekdays[i] != k {
          assert i < n - 1 ==> weekdays[i] < weekdays[n - 1];
        }
        forall i | 0 <= i < n ensures weekdays[i] <= k - 1 {
          assert weekdays[i] != k;
        }
        UptoCountsPrefix(weekdays, n, k - 1);
      }
    }
  }

  lemma {:induction false} MondayWeek(s: Schedule, monday: int, k: nat)
    requires s.kind.WEEKLY? && IsoWeekday(monday) == 1 && k <= 7
    ensures CountDays(s, monday, monday + k) == Upto(s.weekdays, k)
  {
    if k > 0 {
      MondayWeek(s, monday, k - 1);
      assert IsoWeekday(monday + k - 1) == k;
    }
  }

  /** Any seven consecutive days hold every selected weekday once. */
  lemma {:induction false} WeekCount(s: Schedule, from: int)
    requires Normal(s) && s.kind.WEEKLY?
    ensures CountDays(s, from, from + 7) == |s.weekdays|
    decreases IsoWeekday(from)
  {
    if IsoWeekday(from) == 1 {
      MondayWeek(s, from, 7);
      forall i | 0 <= i < |s.weekdays| ensures 1 <= s.weekdays[i] <= 7 { assert s.weekdays[i] in s.weekdays; }
      UptoCountsPrefix(s.weekdays, |s.weekdays|, 7);
    } else {
      WeekCount(s, from - 1);
      CountSplits(s, from - 1, from, from + 7);
      CountSplits(s, from - 1, from + 6, from + 7);
      assert IsoWeekday(from - 1) == IsoWeekday(from + 6);
    }
  }

  lemma {:induction false} WeeksCount(s: Schedule, from: int, weeks: nat)
    requires Normal(s) && s.kind.WEEKLY?
    ensures CountDays(s, from, from + 7 * weeks) == weeks * |s.weekdays|
  {
    if weeks > 0 {
      WeeksCount(s, from, weeks - 1);
      WeekCount(s, from + 7 * (weeks - 1));
      CountSplits(s, from, from + 7 * (weeks - 1), from + 7 * weeks);
    }
  }

  /** The closed form is the naive count. */
  method SelectedDatesBefore(s: Schedule, startDate: int, date: int) returns (count: nat)
    requires Normal(s) && s.kind.WEEKLY?
    ensures count == CountDays(s, startDate, date)
  {
    var delta := date - startDate;
    if delta <= 0 { return 0; }
    var fullWeeks := delta / 7;
    count := fullWeeks * |s.weekdays|;
    var remainder := delta % 7;
    WeeksCount(s, startDate, fullWeeks);
    for offset := 0 to remainder
      invariant count == CountDays(s, startDate, startDate + fullWeeks * 7 + offset)
    {
      if IsoWeekday(startDate + fullWeeks * 7 + offset) in s.weekdays { count := count + 1; }
    }
  }

  // --------------------------------------------------------- enumeration

  /** One occurrence: a selected day and one of the day's times. */
  datatype Slot = Slot(day: int, index: nat)

  predicate Before(a: Slot, b: Slot) { a.day < b.day || (a.day == b.day && a.index < b.index) }

  predicate IsSlot(s: Schedule, x: Slot) {
    s.startDate <= x.day && Selected(s, x.day) && x.index < |s.times|
  }

  /** The position of a slot in the full enumeration from the start date, counted from 1. */
  function Ordinal(s: Schedule, x: Slot): nat {
    CountDays(s, s.startDate, x.day) * |s.times| + x.index + 1
  }

  predicate Allowed(s: Schedule, x: Slot) {
    && (s.endDate.Some? ==> x.day <= s.endDate.value)
    && (s.maxOccurrences.Some? ==> Ordinal(s, x) <= s.maxOccurrences.value)
  }

  /** The full enumeration: every slot from the start date that both bounds allow. */
  predicate Occurs(s: Schedule, x: Slot) { IsSlot(s, x) && Allowed(s, x) }

  function EpochOf(s: Schedule, x: Slot): Option<int>
    requires x.index < |s.times|
  {
    s.zone.resolve(x.day, s.times[x.index])
  }

  lemma OrdinalIncreases(s: Schedule, a: Slot, b: Slot)
    requires IsSlot(s, a) && IsSlot(s, b) && Before(a, b)
    ensures Ordinal(s, a) < Ordinal(s, b)
  {
    if a.day < b.day {
      CountSplits(s, s.startDate, a.day, b.day);
      CountSplits(s, a.day, a.day + 1, b.day);
      var ca, cb := CountDays(s, s.startDate, a.day), CountDays(s, s.startDate, b.day);
      RowsApart(ca, cb, |s.times|);
    }
  }

  lemma RowsApart(a: nat, b: nat, n: nat)
    requires a < b
    ensures a * n + n <= b * n
  {
    assert (a + 1) * n <= b * n;
  }

  lemma EpochIncreases(s: Schedule, a: Slot, b: Slot)
    requires ZoneLaws(s.zone) && Normal(s) && IsSlot(s, a) && IsSlot(s, b) && Before(a, b)
    requires EpochOf(s, a).Some? && EpochOf(s, b).Some?
    ensures EpochOf(s, a).value < EpochOf(s, b).value
  {
    assert EarlierWall(a.day, s.times[a.index], b.day, s.times[b.index]);
  }

  /** A seven-day window always holds a selected day. */
  lemma {:induction false} SelectedSoon(s: Schedule, from: int) returns (day: int)
    requires Normal(s)
    ensures from <= day < from + 7 && Selected(s, day)
  {
    if s.kind.DAILY? {
      day := from;
    } else {
      var w := s.weekdays[0];
      assert w in s.weekdays;
      day := from + (w - IsoWeekday(from)) % 7;
    }
  }

  // -------------------------------------------------------------- search

  /** The wall time of this slot cannot be resolved: the program throws. */
  datatype Unresolvable = Unresolvable(slot: Slot)

  type Found = Result<Option<Slot>, Unresolvable>

  /** None stands for minus infinity. */
  predicate AtOrAfter(epoch: int, floor: Option<int>) { floor.None? || epoch >= floor.value }

  /** Passed over: a real slot whose instant lies before the floor. */
  predicate Skipped(s: Schedule, floor: Option<int>, x: Slot)
    requires x.index < |s.times|
  {
    EpochOf(s, x).Some? && !AtOrAfter(EpochOf(s, x).value, floor)
  }

  ghost predicate SkippedUntil(s: Schedule, searchDate: int, floor: Option<int>, end: Slot) {
    forall x | Occurs(s, x) && searchDate <= x.day && Before(x, end) :: Skipped(s, floor, x)
  }

  /** The first occurrence on or after `searchDate` whose instant is at or after `floor`. */
  ghost predicate IsFirst(s: Schedule, searchDate: int, floor: Option<int>, r: Found) {
    match r
    case Ok(Some(x)) =>
      && Occurs(s, x) && searchDate <= x.day
      && EpochOf(s, x).Some? && AtOrAfter(EpochOf(s, x).value, floor)
      && SkippedUntil(s, searchDate, floor, x)
    case Ok(None) =>
      forall x | Occurs(s, x) && searchDate <= x.day :: Skipped(s, floor, x)
    case Err(Unresolvable(x)) =>
      && Occurs(s, x) && searchDate <= x.day && EpochOf(s, x).None?
      && SkippedUntil(s, searchDate, floor, x)
  }

  /** The description admits one answer. */
  lemma FirstIsUnique(s: Schedule, searchDate: int, floor: Option<int>, a: Found, b: Found)
    requires IsFirst(s, searchDate, floor, a) && IsFirst(s, searchDate, floor, b)
    ensures a == b
  {
    var x := if a.Err? then Some(a.error.slot) else a.value;
    var y := if b.Err? then Some(b.error.slot) else b.value;
    if x.Some? && y.Some? {
      assert !Before(x.value, y.value) && !Before(y.value, x.value);
    }
  }

  /** Once a slot is not allowed, no later slot is. */
  lemma NothingLater(s: Schedule, x: Slot, y: Slot)
    requires IsSlot(s, x) && IsSlot(s, y) && !Allowed(s, x) && (Before(x, y) || x == y)
    ensures !Allowed(s, y)
  {
    if Before(x, y) { OrdinalIncreases(s, x, y); }
  }

  /** No search goes past this date: it is within a week of the later of its start and the day after the floor. */
  function Horizon(s: Schedule, searchDate: int, floor: Option<int>): int {
    match floor
    case None => searchDate
    case Some(f) => Max(searchDate, s.zone.localDate(f) + 1)
  }

  ghost predicate DaysSkipped(s: Schedule, searchDate: int, floor: Option<int>, date: int) {
    && SkippedUntil(s, searchDate, floor, Slot(date, 0))
    && forall d | Horizon(s, searchDate, floor) <= d < date :: !Selected(s, d)
  }

  lemma HorizonNear(s: Schedule, searchDate: int, floor: Option<int>, date: int)
    requires Normal(s) && DaysSkipped(s, searchDate, floor, date)
    ensures date <= Horizon(s, searchDate, floor) + 6
  {
    var d := SelectedSoon(s, Horizon(s, searchDate, floor));
  }

  lemma PastHorizon(s: Schedule, searchDate: int, floor: Option<int>, x: Slot)
    requires ZoneLaws(s.zone) && IsSlot(s, x) && EpochOf(s, x).Some?
    requires Horizon(s, searchDate, floor) <= x.day
    ensures AtOrAfter(EpochOf(s, x).value, floor)
  {
    if floor.Some? {
      LaterDateLaterInstant(s.zone, x.day, s.times[x.index], floor.value);
    }
  }

  lemma NotEarlierDate(s: Schedule, floor: int, x: Slot)
    requires ZoneLaws(s.zone) && IsSlot(s, x) && EpochOf(s, x).Some? && EpochOf(s, x).value >= floor
    ensures s.zone.localDate(floor) <= x.day
  {
    if s.zone.localDate(floor) > x.day {
      EarlierDateEarlierInstant(s.zone, x.day, s.times[x.index], floor);
    }
  }

  /** The times of one selected day, tried in order. */
  method TryDay(s: Schedule, searchDate: int, floor: Option<int>, date: int, before: nat) returns (r: Option<Found>)
    requires Normal(s) && ZoneLaws(s.zone)
    requires s.startDate <= searchDate <= date && Selected(s, date)
    requires s.endDate.Some? ==> date <= s.endDate.value
    requires before == CountDays(s, s.startDate, date)
    requires DaysSkipped(s, searchDate, floor, date)
    ensures r.Some? ==> IsFirst(s, searchDate, floor, r.value)
    ensures r.Some? && r.value.Ok? && r.value.value.Some? ==> r.value.value.value.day == date
    ensures r.None? ==> DaysSkipped(s, searchDate, floor, date + 1)
  {
    for index := 0 to |s.times|
      invariant SkippedUntil(s, searchDate, floor, Slot(date, index))
      invariant index > 0 ==> date < Horizon(s, searchDate, floor)
    {
      var x := Slot(date, index);
      var ordinal := before * |s.times| + index + 1;
      if s.maxOccurrences.Some? && ordinal > s.maxOccurrences.value {
        forall y | Occurs(s, y) && searchDate <= y.day ensures Skipped(s, floor, y) {
          if !Before(y, x) { NothingLater(s, x, y); }
        }
        return Some(Ok(None));
      }
      match s.zone.resolve(date, s.times[index])
      case None => return Some(Err(Unresolvable(x)));
      case Some(epoch) =>
        if AtOrAfter(epoch, floor) { return Some(Ok(Some(x))); }
        if Horizon(s, searchDate, floor) <= date { PastHorizon(s, searchDate, floor, x); }
    }
    r := None;
  }

  lemma EndedByDate(s: Schedule, searchDate: int, floor: Option<int>, date: int)
    requires s.endDate.Some? && date > s.endDate.value && DaysSkipped(s, searchDate, floor, date)
    ensures IsFirst(s, searchDate, floor, Ok(None))
  {
    forall y | Occurs(s, y) && searchDate <= y.day ensures Skipped(s, floor, y) {
      assert Before(y, Slot(date, 0));
    }
  }

  method FirstDailyCandidateOnOrAfter(s: Schedule, searchDate: int, floor: Option<int>) returns (r: Found)
    requires Normal(s) && s.kind.DAILY? && ZoneLaws(s.zone) && s.startDate <= searchDate
    ensures IsFirst(s, searchDate, floor, r)
    ensures r.Ok? && r.value.Some? ==> r.value.value.day <= Horizon(s, searchDate, floor) + 6
  {
    var date := searchDate;
    while true
      invariant searchDate <= date && DaysSkipped(s, searchDate, floor, date)
      decreases Horizon(s, searchDate, floor) + 7 - date
    {
      HorizonNear(s, searchDate, floor, date);
      if s.endDate.Some? && date > s.endDate.value {
        EndedByDate(s, searchDate, floor, date);
        return Ok(None);
      }
      var dayIndex := date - s.startDate;
      DailyCount(s, s.startDate, date);
      var found := TryDay(s, searchDate, floor, date, dayIndex);
      if found.Some? { return found.value; }
      date := date + 1;
    }
  }

  method FirstWeeklyCandidateOnOrAfter(s: Schedule, searchDate: int, floor: Option<int>) returns (r: Found)
    requires Normal(s) && s.kind.WEEKLY? && ZoneLaws(s.zone) && s.startDate <= searchDate
    ensures IsFirst(s, searchDate, floor, r)
    ensures r.Ok? && r.value.Some? ==> r.value.value.day <= Horizon(s, searchDate, floor) + 6
  {
    var date := searchDate;
    while true
      invariant searchDate <= date && DaysSkipped(s, searchDate, floor, date)
      decreases Horizon(s, searchDate, floor) + 7 - date
    {
      HorizonNear(s, searchDate, floor, date);
      if s.endDate.Some? && date > s.endDate.value {
        EndedByDate(s, searchDate, floor, date);
        return Ok(None);
      }
      if IsoWeekday(date) in s.weekdays {
        var selectedBefore := SelectedDatesBefore(s, s.startDate, date);
        var found := TryDay(s, searchDate, floor, date, selectedBefore);
        if found.Some? { return found.value; }
      }
      date := date + 1;
    }
  }

  /**
   * Starting at the later of the start date and the floor's local date finds what searching the whole
   * enumeration from the start date finds. The full search can only differ by stopping at a wall time that
   * cannot be resolved on an earlier date, which the short search never touches.
   */
  lemma ShortSearchIsFullSearch(s: Schedule, floor: int, short: Found, full: Found)
    requires ZoneLaws(s.zone)
    requires IsFirst(s, Max(s.startDate, s.zone.localDate(floor)), Some(floor), short)
    requires IsFirst(s, s.startDate, Some(floor), full)
    ensures short == full || (full.Err? && full.error.slot.day < Max(s.startDate, s.zone.localDate(floor)))
  {
    var searchDate := Max(s.startDate, s.zone.localDate(floor));
    if full.Ok? && full.value.Some? { NotEarlierDate(s, floor, full.value.value); }
    if full.Ok? || full.error.slot.day >= searchDate {
      assert IsFirst(s, searchDate, Some(floor), full);
      FirstIsUnique(s, searchDate, Some(floor), short, full);
    }
  }
}
