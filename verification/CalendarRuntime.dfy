/**
 * The durable side of the calendar: per-revision cursors, commits, and the admission of one session
 * (src/core/calendar-schedule.js and src/core/calendar-runtime.js).
 */
module CalendarRuntime {
  import opened Common
  import opened Calendar

  /** The hash of a normalized schedule, under the current and under the older, shorter scheme. */
  type Revision = Text

  datatype Cursor = Cursor(revision: Revision, through: int)

  /** `cursors` lists the own entries of reconciledThroughByRevision in creation order. */
  datatype Runtime = Runtime(
    committedOccurrenceIds: seq<Text>, cursors: seq<Cursor>, recurrenceRevision: Option<Revision>,
    reconciledThrough: Option<int>)

  /** A session's schedule with its two revisions, and those of its catch-up variant used for probing. */
  datatype Session = Session(
    schedule: Schedule, revision: Revision, legacyRevision: Revision, probeRevision: Revision,
    probeLegacyRevision: Revision)

  datatype Occurrence = Occurrence(id: Text, revision: Revision, slot: Slot, scheduledAt: int)

  const MAX_REVISION_CURSORS: nat := 32
  const MAX_HISTORY: nat := 512
  const DAILY_PROBE_LOOKBACK_MS: int := 3 * 24 * 60 * 60 * 1000
  const WEEKLY_PROBE_LOOKBACK_MS: int := 9 * 24 * 60 * 60 * 1000

  // ------------------------------------------------------------- cursors

  ghost predicate UniqueRevisions(cursors: seq<Cursor>) {
    forall i, j | 0 <= i < j < |cursors| :: cursors[i].revision != cursors[j].revision
  }

  function Lookup(cursors: seq<Cursor>, revision: Revision): Option<int> {
    if cursors == [] then None
    else if cursors[0].revision == revision then Some(cursors[0].through)
    else Lookup(cursors[1..], revision)
  }

  /** Assignment to one key of the record: in place when present, else appended. */
  function Store(cursors: seq<Cursor>, revision: Revision, through: int): seq<Cursor> {
    if cursors == [] then [Cursor(revision, through)]
    else if cursors[0].revision == revision then [Cursor(revision, through)] + cursors[1..]
    else [cursors[0]] + Store(cursors[1..], revision, through)
  }

  lemma {:induction false} StoreThenLookup(cursors: seq<Cursor>, revision: Revision, through: int, other: Revision)
    ensures Lookup(Store(cursors, revision, through), other)
            == if other == revision then Some(through) else Lookup(cursors, other)
  {
    if cursors != [] && cursors[0].revision != revision {
      StoreThenLookup(cursors[1..], revision, through, other);
    }
  }

  lemma {:induction false} LookupMember(cursors: seq<Cursor>, c: Cursor)
    requires UniqueRevisions(cursors)
    ensures c in cursors <==> Lookup(cursors, c.revision) == Some(c.through)
  {
    if cursors != [] {
      LookupMember(cursors[1..], c);
      if cursors[0].revision == c.revision && c in cursors {
        var i :| 0 <= i < |cursors| && cursors[i] == c;
        assert i == 0;
      }
    }
  }

  lemma {:induction false} StoreKeepsUnique(cursors: seq<Cursor>, revision: Revision, through: int)
    requires UniqueRevisions(cursors)
    ensures UniqueRevisions(Store(cursors, revision, through))
    ensures forall c <- Store(cursors, revision, through) :: c == Cursor(revision, through) || (c in cursors && c.revision != revision)
  {
    if cursors != [] && cursors[0].revision != revision {
      StoreKeepsUnique(cursors[1..], revision, through);
      var rest := Store(cursors[1..], revision, through);
      forall j | 0 <= j < |rest| ensures rest[j].revision != cursors[0].revision {
        assert rest[j] in rest;
      }
    }
  }

  // ------------------------------------------------------ bounding cursors

  function InsertNewest(c: Cursor, s: seq<Cursor>): seq<Cursor> {
    if s == [] || s[0].through <= c.through then [c] + s else [s[0]] + InsertNewest(c, s[1..])
  }

  /** Newest first; equal entries keep their order. */
  function NewestFirst(s: seq<Cursor>): seq<Cursor> {
    if s == [] then [] else InsertNewest(s[0], NewestFirst(s[1..]))
  }

  ghost predicate Descending(s: seq<Cursor>) {
    forall i, j | 0 <= i < j < |s| :: s[i].through >= s[j].through
  }

  lemma {:induction false} InsertNewestSorts(c: Cursor, s: seq<Cursor>)
    requires Descending(s) && UniqueRevisions(s) && !Has(s, c.revision)
    ensures var t := InsertNewest(c, s);
            Descending(t) && UniqueRevisions(t) && forall d: Cursor :: d in t <==> d == c || d in s
  {
    if s != [] && s[0].through > c.through {
      InsertNewestSorts(c, s[1..]);
      assert forall d: Cursor :: d in s <==> d == s[0] || d in s[1..];
      var t := InsertNewest(c, s[1..]);
      forall j | 0 <= j < |t| ensures t[j].through <= s[0].through && t[j].revision != s[0].revision {
        assert t[j] in t;
      }
    }
  }

  lemma {:induction false} NewestFirstSorts(s: seq<Cursor>)
    requires UniqueRevisions(s)
    ensures var t := NewestFirst(s);
            Descending(t) && UniqueRevisions(t) && forall d: Cursor :: d in t <==> d in s
  {
    if s != [] {
      NewestFirstSorts(s[1..]);
      InsertNewestSorts(s[0], NewestFirst(s[1..]));
    }
  }

  function OnlyProtected(entries: seq<Cursor>, protectedSet: set<Revision>): (r: seq<Cursor>)
    ensures forall c :: c in r <==> c in entries && c.revision in protectedSet
  {
    if entries == [] then []
    else
      var rest := OnlyProtected(entries[1..], protectedSet);
      if entries[0].revision in protectedSet then [entries[0]] + rest else rest
  }

  lemma {:induction false} OnlyProtectedUnique(entries: seq<Cursor>, protectedSet: set<Revision>)
    requires UniqueRevisions(entries)
    ensures UniqueRevisions(OnlyProtected(entries, protectedSet))
  {
    if entries != [] {
      OnlyProtectedUnique(entries[1..], protectedSet);
      var rest := OnlyProtected(entries[1..], protectedSet);
      forall j | 0 <= j < |rest| ensures rest[j].revision != entries[0].revision {
        assert rest[j] in rest;
      }
    }
  }

  ghost predicate Has(cursors: seq<Cursor>, revision: Revision) {
    exists c <- cursors :: c.revision == revision
  }

  ghost predicate AllProtected(kept: seq<Cursor>, protectedSet: set<Revision>) {
    forall d <- kept :: d.revision in protectedSet
  }

  /** Which cursors survive: every protected one, and of the others the newest, as far as the bound allows. */
  ghost predicate Bounded(cursors: seq<Cursor>, protectedSet: set<Revision>, limit: nat, kept: seq<Cursor>) {
    && UniqueRevisions(kept)
    && (forall c <- kept :: c in cursors)
    && (forall c <- cursors :: c.revision in protectedSet ==> c in kept)
    && (forall c, d | c in cursors && c !in kept && d in kept && d.revision !in protectedSet ::
          d.through >= c.through)
    && (|kept| <= limit || AllProtected(kept, protectedSet))
    && (|kept| < limit ==> forall c <- cursors :: c in kept)
  }

  /** The first k entries have been offered, and everything taken beyond the protected ones is among them. */
  ghost predicate Offered(entries: seq<Cursor>, k: nat, protectedSet: set<Revision>, limit: nat, kept: seq<Cursor>) {
    && k <= |entries| && Descending(entries) && UniqueRevisions(entries) && UniqueRevisions(kept)
    && (forall c <- kept :: c in entries)
    && (forall c <- entries :: c.revision in protectedSet ==> c in kept)
    && (forall d <- kept :: d.revision in protectedSet || d in entries[..k])
    && (forall i | 0 <= i < k :: entries[i] in kept)
    && (|kept| <= limit || AllProtected(kept, protectedSet))
  }

  lemma AlreadyKept(entries: seq<Cursor>, k: nat, protectedSet: set<Revision>, limit: nat, kept: seq<Cursor>)
    requires k < |entries| && Offered(entries, k, protectedSet, limit, kept) && Has(kept, entries[k].revision)
    ensures Offered(entries, k + 1, protectedSet, limit, kept)
  {
    SameRevisionSameCursor(entries, kept, entries[k]);
    assert entries[..k + 1] == entries[..k] + [entries[k]];
  }

  lemma TakeOne(entries: seq<Cursor>, k: nat, protectedSet: set<Revision>, limit: nat, kept: seq<Cursor>)
    requires k < |entries| && Offered(entries, k, protectedSet, limit, kept) && !Has(kept, entries[k].revision)
    requires |kept| < limit
    ensures Offered(entries, k + 1, protectedSet, limit, kept + [entries[k]])
  {
    assert entries[..k + 1] == entries[..k] + [entries[k]];
    forall i | 0 <= i < |kept| ensures kept[i].revision != entries[k].revision { assert kept[i] in kept; }
  }

  lemma StopHere(entries: seq<Cursor>, k: nat, protectedSet: set<Revision>, limit: nat, kept: seq<Cursor>)
    requires Offered(entries, k, protectedSet, limit, kept) && (k == |entries| || |kept| >= limit)
    ensures Bounded(entries, protectedSet, limit, kept)
  {
    forall c, d | c in entries && c !in kept && d in kept && d.revision !in protectedSet
      ensures d.through >= c.through
    {
      var i :| 0 <= i < |entries| && entries[i] == c;
      var j :| 0 <= j < k && entries[..k][j] == d;
      assert k <= i;
    }
  }

  method BoundedRevisionCursors(cursors: seq<Cursor>, active: Revision, protectedRevisions: set<Revision>, limit: nat)
    returns (kept: seq<Cursor>)
    requires UniqueRevisions(cursors)
    ensures Bounded(cursors, {active} + protectedRevisions, limit, kept)
  {
    var protectedSet := {active} + protectedRevisions;
    var entries := NewestFirst(cursors);
    NewestFirstSorts(cursors);
    kept := OnlyProtected(entries, protectedSet);
    OnlyProtectedUnique(entries, protectedSet);
    for k := 0 to |entries|
      invariant Offered(entries, k, protectedSet, limit, kept)
    {
      var entry := entries[k];
      if exists c <- kept :: c.revision == entry.revision {
        AlreadyKept(entries, k, protectedSet, limit, kept);
        continue;
      }
      if |kept| >= limit {
        StopHere(entries, k, protectedSet, limit, kept);
        return;
      }
      TakeOne(entries, k, protectedSet, limit, kept);
      kept := kept + [entry];
    }
    StopHere(entries, |entries|, protectedSet, limit, kept);
  }

  lemma SameRevisionSameCursor(cursors: seq<Cursor>, kept: seq<Cursor>, entry: Cursor)
    requires UniqueRevisions(cursors) && entry in cursors
    requires forall c <- kept :: c in cursors
    requires exists c <- kept :: c.revision == entry.revision
    ensures entry in kept
  {
    var c :| c in kept && c.revision == entry.revision;
    LookupMember(cursors, c);
    LookupMember(cursors, entry);
  }

  // ------------------------------------------------------------- runtime

  function OwnCursor(rt: Runtime, revision: Revision): Option<int> {
    if rt.recurrenceRevision == Some(revision) then rt.reconciledThrough else None
  }

  /** How far a revision is reconciled; a profile from the older hash scheme is read through its old revision. */
  function RevisionCursor(rt: Runtime, revision: Revision, legacy: Revision): Option<int> {
    var direct := Lookup(rt.cursors, revision);
    if direct.Some? then direct
    else if rt.recurrenceRevision == Some(legacy) && Lookup(rt.cursors, legacy).Some? then Lookup(rt.cursors, legacy)
    else if rt.recurrenceRevision == Some(legacy) && rt.reconciledThrough.Some? then rt.reconciledThrough
    else OwnCursor(rt, revision)
  }

  function CursorOf(ses: Session, rt: Runtime): Option<int> {
    RevisionCursor(rt, ses.revision, ses.legacyRevision)
  }

  /**
   * A session continues where its own revision stopped; the older hash of the same schedule counts only while it is the
   * last one used, its own entry before the common one; any other revision counts for nothing.
   */
  lemma CursorMeans(ses: Session, rt: Runtime)
    ensures var own := Lookup(rt.cursors, ses.revision); var cursor := CursorOf(ses, rt);
            && (own.Some? ==> cursor == own)
            && (own.None? && rt.recurrenceRevision == Some(ses.legacyRevision) ==>
                  && (Lookup(rt.cursors, ses.legacyRevision).Some? ==> cursor == Lookup(rt.cursors, ses.legacyRevision))
                  && (Lookup(rt.cursors, ses.legacyRevision).None? ==> cursor == rt.reconciledThrough))
            && (own.None? && rt.recurrenceRevision != Some(ses.legacyRevision) ==>
                  cursor == (if rt.recurrenceRevision == Some(ses.revision) then rt.reconciledThrough else None))
  {
  }

  function CommittedThrough(rt: Runtime, o: Occurrence): int {
    match Lookup(rt.cursors, o.revision)
    case None => o.scheduledAt
    case Some(c) => Max(c, o.scheduledAt)
  }

  function History(ids: seq<Text>, id: Text): seq<Text> {
    var all := if id in ids then ids else ids + [id];
    if |all| > MAX_HISTORY then all[|all| - MAX_HISTORY..] else all
  }

  lemma CommittedIsInHistory(ids: seq<Text>, id: Text)
    requires |ids| <= MAX_HISTORY
    ensures id in History(ids, id)
  {
    var all := if id in ids then ids else ids + [id];
    if id !in ids { assert all[|all| - 1] == id; }
  }

  /** The runtime after committing one occurrence. */
  ghost predicate Committed(rt: Runtime, o: Occurrence, protectedRevisions: set<Revision>, rt': Runtime) {
    var through := CommittedThrough(rt, o);
    && Bounded(Store(rt.cursors, o.revision, through), {o.revision} + protectedRevisions, MAX_REVISION_CURSORS, rt'.cursors)
    && rt'.recurrenceRevision == Some(o.revision)
    && rt'.reconciledThrough == Some(through)
    && rt'.committedOccurrenceIds == History(rt.committedOccurrenceIds, o.id)
  }

  method CommitCalendarOccurrence(rt: Runtime, o: Occurrence, protectedRevisions: set<Revision>) returns (rt': Runtime)
    requires UniqueRevisions(rt.cursors)
    ensures Committed(rt, o, protectedRevisions, rt')
  {
    var through := CommittedThrough(rt, o);
    var cursors := Store(rt.cursors, o.revision, through);
    StoreKeepsUnique(rt.cursors, o.revision, through);
    var bounded := BoundedRevisionCursors(cursors, o.revision, protectedRevisions, MAX_REVISION_CURSORS);
    rt' := Runtime(History(rt.committedOccurrenceIds, o.id), bounded, Some(o.revision), Some(through));
  }

  /** The active revision and the protected ones are never evicted, and nobody's cursor value changes. */
  lemma CommitKeepsCursors(rt: Runtime, o: Occurrence, protectedRevisions: set<Revision>, rt': Runtime, other: Revision)
    requires UniqueRevisions(rt.cursors) && Committed(rt, o, protectedRevisions, rt')
    ensures UniqueRevisions(rt'.cursors)
    ensures Lookup(rt'.cursors, o.revision) == Some(CommittedThrough(rt, o))
    ensures other in protectedRevisions && other != o.revision ==> Lookup(rt'.cursors, other) == Lookup(rt.cursors, other)
    ensures other != o.revision && Lookup(rt'.cursors, other).Some? ==> Lookup(rt'.cursors, other) == Lookup(rt.cursors, other)
  {
    var through := CommittedThrough(rt, o);
    var stored := Store(rt.cursors, o.revision, through);
    StoreKeepsUnique(rt.cursors, o.revision, through);
    KeptLookup(stored, {o.revision} + protectedRevisions, rt'.cursors, o.revision);
    KeptLookup(stored, {o.revision} + protectedRevisions, rt'.cursors, other);
    StoreThenLookup(rt.cursors, o.revision, through, o.revision);
    StoreThenLookup(rt.cursors, o.revision, through, other);
  }

  lemma KeptLookup(cursors: seq<Cursor>, protectedSet: set<Revision>, kept: seq<Cursor>, revision: Revision)
    requires UniqueRevisions(cursors) && Bounded(cursors, protectedSet, MAX_REVISION_CURSORS, kept)
    ensures Lookup(kept, revision).Some? ==> Lookup(kept, revision) == Lookup(cursors, revision)
    ensures revision in protectedSet ==> Lookup(kept, revision) == Lookup(cursors, revision)
  {
    if Lookup(kept, revision).Some? {
      var c := Cursor(revision, Lookup(kept, revision).value);
      LookupMember(kept, c);
      LookupMember(cursors, c);
    } else if Lookup(cursors, revision).Some? {
      var c := Cursor(revision, Lookup(cursors, revision).value);
      LookupMember(cursors, c);
      LookupMember(kept, c);
    }
  }

  // ------------------------------------------------------ next occurrence

  function FloorOf(s: Schedule, cursor: Option<int>, now: int): Option<int> {
    if !s.catchUp then Some(match cursor case None => now case Some(c) => Max(now, c + 1))
    else match cursor case None => None case Some(c) => Some(c + 1)
  }

  function SearchDateOf(s: Schedule, floor: Option<int>): int {
    match floor
    case None => s.startDate
    case Some(f) => Max(s.startDate, s.zone.localDate(f))
  }

  /** What the calendar answers for a cursor: the first occurrence past it, and with catch-up off not before now. */
  ghost predicate IsNext(s: Schedule, cursor: Option<int>, now: int, r: Found) {
    IsFirst(s, SearchDateOf(s, FloorOf(s, cursor, now)), FloorOf(s, cursor, now), r)
  }

  datatype Next = Next(slot: Slot, scheduledAt: int, due: bool, catchUp: bool)

  method NextRecurring(s: Schedule, cursor: Option<int>, now: int) returns (r: Result<Option<Next>, Unresolvable>)
    requires Normal(s) && ZoneLaws(s.zone)
    ensures IsNext(s, cursor, now, match r
                                   case Err(e) => Err(e)
                                   case Ok(None) => Ok(None)
                                   case Ok(Some(n)) => Ok(Some(n.slot)))
    ensures r.Ok? && r.value.Some? ==>
              var n := r.value.value;
              && n.slot.index < |s.times| && EpochOf(s, n.slot) == Some(n.scheduledAt)
              && (n.due <==> n.scheduledAt <= now)
              && (n.catchUp <==> s.catchUp && n.scheduledAt < now)
              && (!s.catchUp ==> n.scheduledAt >= now)
              && (cursor.Some? ==> n.scheduledAt > cursor.value)
  {
    var floor := FloorOf(s, cursor, now);
    var searchDate := SearchDateOf(s, floor);
    var found: Found;
    if s.kind.DAILY? {
      found := FirstDailyCandidateOnOrAfter(s, searchDate, floor);
    } else {
      found := FirstWeeklyCandidateOnOrAfter(s, searchDate, floor);
    }
    match found
    case Err(e) => return Err(e);
    case Ok(None) => return Ok(None);
    case Ok(Some(slot)) =>
      var scheduledAt := s.zone.resolve(slot.day, s.times[slot.index]).value;
      return Ok(Some(Next(slot, scheduledAt, scheduledAt <= now, s.catchUp && scheduledAt < now)));
  }

  // ------------------------------------------------------------ admission

  function ProbeSchedule(s: Schedule): Schedule { s.(catchUp := true) }

  /** The runtime used only to ask, with catch-up on, whether something was missed. */
  function CatchUpProbeRuntime(ses: Session, rt: Runtime, now: int): Runtime {
    var s := ses.schedule;
    var direct := Lookup(rt.cursors, ses.revision);
    var cursor := if direct.Some? then direct else OwnCursor(rt, ses.revision);
    if cursor.Some? then rt.(cursors := Store(rt.cursors, ses.probeRevision, cursor.value))
    else if s.endDate.Some? || s.maxOccurrences.Some? then rt
    else
      var lookback := if s.kind.DAILY? then DAILY_PROBE_LOOKBACK_MS else WEEKLY_PROBE_LOOKBACK_MS;
      rt.(cursors := Store(rt.cursors, ses.probeRevision, now - lookback))
  }

  function ProbeCursor(ses: Session, rt: Runtime, now: int): Option<int> {
    RevisionCursor(CatchUpProbeRuntime(ses, rt, now), ses.probeRevision, ses.probeLegacyRevision)
  }

  /** The runtime after a backlog up to just before `now` is skipped. */
  ghost predicate Reconciled(ses: Session, rt: Runtime, missed: Occurrence, now: int, protectedRevisions: set<Revision>, rt': Runtime) {
    exists committed: Runtime ::
      && Committed(rt, missed, protectedRevisions, committed)
      && rt' == SkippedRuntime(ses, committed, missed, now)
  }

  function SkippedRuntime(ses: Session, committed: Runtime, missed: Occurrence, now: int): Runtime {
    var through := Max(missed.scheduledAt, now - 1);
    committed.(recurrenceRevision := Some(ses.revision), reconciledThrough := Some(through),
               cursors := Store(committed.cursors, ses.revision, through))
  }

  datatype Admission =
    | MissedSkipped(slot: Slot)
    | Exhausted
    | Waiting(slot: Slot, scheduledAt: int)
    | MissedWaitingCatchUp(slot: Slot, scheduledAt: int)
    | Due(slot: Slot, scheduledAt: int)

  /** A missed occurrence that the probe found, renamed to the session's own revision. */
  ghost predicate Missed(ses: Session, rt: Runtime, now: int, missed: Occurrence) {
    && missed.revision == ses.revision
    && IsNext(ProbeSchedule(ses.schedule), ProbeCursor(ses, rt, now), now, Ok(Some(missed.slot)))
    && missed.slot.index < |ses.schedule.times|
    && EpochOf(ses.schedule, missed.slot) == Some(missed.scheduledAt)
    && missed.scheduledAt < now
  }

  /**
   * How far back a missed slot is looked for: to the session's own cursor, or without one to where the same schedule with
   * catch-up got to, if it is bounded, and else three days, nine for a weekly schedule. None is no limit.
   */
  function StartingBound(ses: Session, rt: Runtime, now: int): Option<int> {
    var own := if Lookup(rt.cursors, ses.revision).Some? then Lookup(rt.cursors, ses.revision)
               else if rt.recurrenceRevision == Some(ses.revision) then rt.reconciledThrough
               else None;
    if own.Some? then own
    else if ses.schedule.endDate.Some? || ses.schedule.maxOccurrences.Some? then
      RevisionCursor(rt, ses.probeRevision, ses.probeLegacyRevision)
    else Some(now - (if ses.schedule.kind.DAILY? then 3 else 9) * 86400000)
  }

  /** A slot of the schedule that lies before now and past that bound. */
  predicate MissedSlot(ses: Session, rt: Runtime, now: int, x: Slot) {
    && Occurs(ses.schedule, x) && EpochOf(ses.schedule, x).Some? && EpochOf(ses.schedule, x).value < now
    && var bound := StartingBound(ses, rt, now); (bound.Some? ==> EpochOf(ses.schedule, x).value > bound.value)
  }

  ghost predicate Backlog(ses: Session, rt: Runtime, now: int) {
    exists x :: MissedSlot(ses, rt, now, x)
  }

  lemma ProbesFromBound(ses: Session, rt: Runtime, now: int)
    ensures ProbeCursor(ses, rt, now) == StartingBound(ses, rt, now)
  {
    var direct := Lookup(rt.cursors, ses.revision);
    var cursor := if direct.Some? then direct else OwnCursor(rt, ses.revision);
    if cursor.Some? {
      StoreThenLookup(rt.cursors, ses.probeRevision, cursor.value, ses.probeRevision);
    } else {
      var lookback := if ses.schedule.kind.DAILY? then DAILY_PROBE_LOOKBACK_MS else WEEKLY_PROBE_LOOKBACK_MS;
      StoreThenLookup(rt.cursors, ses.probeRevision, now - lookback, ses.probeRevision);
    }
  }

  lemma {:induction false} CatchUpCountsAlike(s: Schedule, from: int, until: int)
    ensures CountDays(ProbeSchedule(s), from, until) == CountDays(s, from, until)
    decreases until - from
  {
    if from < until { CatchUpCountsAlike(s, from, until - 1); }
  }

  lemma OccursAlike(s: Schedule, x: Slot)
    ensures Occurs(ProbeSchedule(s), x) <==> Occurs(s, x)
  {
    CatchUpCountsAlike(s, s.startDate, x.day);
  }

  lemma SkippedIsEarlier(s: Schedule, bound: Option<int>, now: int, x: Slot)
    requires Normal(s) && ZoneLaws(s.zone) && s.catchUp && Occurs(s, x) && EpochOf(s, x).Some?
    requires bound.Some? ==> EpochOf(s, x).value > bound.value
    ensures x.day >= SearchDateOf(s, FloorOf(s, bound, now)) && !Skipped(s, FloorOf(s, bound, now), x)
  {
    if bound.Some? { DateOfFloor(s.zone, x.day, s.times[x.index], bound.value + 1); }
  }

  lemma DateOfFloor(z: Zone, d: int, t: int, f: int)
    requires ZoneLaws(z) && z.resolve(d, t).Some? && z.resolve(d, t).value >= f
    ensures z.localDate(f) <= d
  {
  }

  /** The answer of the probe is the first missed slot, if there is one. */
  lemma ProbeFindsBacklog(ses: Session, rt: Runtime, now: int, probed: Option<Slot>)
    requires Normal(ses.schedule) && ZoneLaws(ses.schedule.zone)
    requires IsNext(ProbeSchedule(ses.schedule), ProbeCursor(ses, rt, now), now, Ok(probed))
    ensures probed.Some? ==> probed.value.index < |ses.schedule.times| && EpochOf(ses.schedule, probed.value).Some?
    ensures Backlog(ses, rt, now) <==> probed.Some? && EpochOf(ses.schedule, probed.value).value < now
    ensures Backlog(ses, rt, now) ==> MissedSlot(ses, rt, now, probed.value)
    ensures Backlog(ses, rt, now) ==> forall x | MissedSlot(ses, rt, now, x) :: !Before(x, probed.value)
  {
    ProbesFromBound(ses, rt, now);
    hide ProbeCursor, StartingBound;
    var bound := StartingBound(ses, rt, now);
    if probed.Some? {
      OccursAlike(ses.schedule, probed.value);
      assert EpochOf(ses.schedule, probed.value).value < now ==> MissedSlot(ses, rt, now, probed.value);
    }
    forall x | MissedSlot(ses, rt, now, x)
      ensures probed.Some?
      ensures probed.Some? ==> !Before(x, probed.value) && EpochOf(ses.schedule, probed.value).value < now
    {
      OccursAlike(ses.schedule, x);
      SkippedIsEarlier(ProbeSchedule(ses.schedule), bound, now, x);
      if probed.Some? && Before(probed.value, x) { EpochIncreases(ProbeSchedule(ses.schedule), probed.value, x); }
    }
  }

  class CalendarSession {
    const session: Session
    const occurrenceId: int -> Text
    var runtime: Runtime

    constructor (session: Session, occurrenceId: int -> Text, runtime: Runtime)
      ensures this.session == session && this.runtime == runtime && this.occurrenceId == occurrenceId
    {
      this.session := session;
      this.occurrenceId := occurrenceId;
      this.runtime := runtime;
    }

    ghost predicate Valid()
      reads this
    {
      Normal(session.schedule) && ZoneLaws(session.schedule.zone) && UniqueRevisions(runtime.cursors)
    }

    /** Commits the first missed slot and moves the cursor to just before now: the whole backlog is behind it. */
    method ReconcileMissedThrough(missed: Occurrence, now: int, protectedRevisions: set<Revision>)
      requires Valid() && missed.revision == session.revision && missed.scheduledAt < now
      modifies this
      ensures Valid() && Reconciled(session, old(runtime), missed, now, protectedRevisions, runtime)
      ensures CursorOf(session, runtime) == Some(now - 1)
      ensures runtime.recurrenceRevision == Some(session.revision) && runtime.reconciledThrough == Some(now - 1)
      ensures |old(runtime).committedOccurrenceIds| <= MAX_HISTORY ==> missed.id in runtime.committedOccurrenceIds
      ensures StartingBound(session, runtime, now) == Some(now - 1)
    {
      var committed := CommitCalendarOccurrence(runtime, missed, protectedRevisions);
      CommitKeepsCursors(runtime, missed, protectedRevisions, committed, session.revision);
      StoreKeepsUnique(committed.cursors, session.revision, Max(missed.scheduledAt, now - 1));
      StoreThenLookup(committed.cursors, session.revision, now - 1, session.revision);
      if |runtime.committedOccurrenceIds| <= MAX_HISTORY { CommittedIsInHistory(runtime.committedOccurrenceIds, missed.id); }
      runtime := SkippedRuntime(session, committed, missed, now);
    }

    /**
     * Admission never delivers a backlog when catch-up is off: it skips it first, in one step, exactly when there
     * is one. Otherwise the next slot waits, is due, or was missed, as its instant lies after, at or before now.
     */
    method CalendarAdmission(now: int, protectedRevisions: set<Revision>) returns (r: Result<Admission, Unresolvable>)
      requires Valid()
      modifies this
      ensures Valid()
      ensures r.Ok? ==> (r.value.MissedSkipped? <==> !session.schedule.catchUp && Backlog(session, old(runtime), now))
      ensures r.Ok? && r.value.MissedSkipped? ==>
                && MissedSlot(session, old(runtime), now, r.value.slot)
                && (forall x | MissedSlot(session, old(runtime), now, x) :: !Before(x, r.value.slot))
                && CursorOf(session, runtime) == Some(now - 1)
                && runtime.recurrenceRevision == Some(session.revision) && runtime.reconciledThrough == Some(now - 1)
      ensures r.Err? ==> Occurs(session.schedule, r.error.slot) && EpochOf(session.schedule, r.error.slot).None?
      ensures r.Ok? && r.value.MissedSkipped? ==>
                exists missed :: Missed(session, old(runtime), now, missed) && missed.slot == r.value.slot
                                 && Reconciled(session, old(runtime), missed, now, protectedRevisions, runtime)
      ensures !(r.Ok? && r.value.MissedSkipped?) ==> runtime == old(runtime)
      ensures r.Ok? && !r.value.MissedSkipped? ==>
                IsNext(session.schedule, CursorOf(session, runtime), now,
                       Ok(if r.value.Exhausted? then None else Some(r.value.slot)))
      ensures r.Ok? && !r.value.MissedSkipped? && !r.value.Exhausted? ==>
                && r.value.slot.index < |session.schedule.times|
                && EpochOf(session.schedule, r.value.slot) == Some(r.value.scheduledAt)
                && (r.value.Waiting? <==> r.value.scheduledAt > now)
                && (r.value.Due? <==> r.value.scheduledAt == now)
                && (r.value.MissedWaitingCatchUp? <==> r.value.scheduledAt < now)
                && (r.value.MissedWaitingCatchUp? ==> session.schedule.catchUp)
    {
      var s := session.schedule;
      if !s.catchUp {
        var cursor := ProbeCursor(session, runtime, now);
        var probing := NextRecurring(ProbeSchedule(s), cursor, now);
        if probing.Err? {
          OccursAlike(s, probing.error.slot);
          return Err(probing.error);
        }
        var probed := probing.value;
        ProbeFindsBacklog(session, runtime, now, if probed.None? then None else Some(probed.value.slot));
        if probed.Some? && probed.value.scheduledAt < now {
          var slot := probed.value.slot;
          var missed := Occurrence(occurrenceId(probed.value.scheduledAt), session.revision, slot, probed.value.scheduledAt);
          assert Missed(session, runtime, now, missed);
          ReconcileMissedThrough(missed, now, protectedRevisions);
          return Ok(MissedSkipped(slot));
        }
      }
      var next :- NextRecurring(s, CursorOf(session, runtime), now);
      if next.None? { return Ok(Exhausted); }
      var n := next.value;
      if !n.due { return Ok(Waiting(n.slot, n.scheduledAt)); }
      if n.catchUp && s.catchUp { return Ok(MissedWaitingCatchUp(n.slot, n.scheduledAt)); }
      return Ok(Due(n.slot, n.scheduledAt));
    }

    /** Commits only an occurrence that belongs to the session's current schedule; any other is refused. */
    method CommitVerifiedCalendarOccurrence(o: Occurrence, protectedRevisions: set<Revision>) returns (accepted: bool)
      requires Valid()
      modifies this
      ensures Valid()
      ensures accepted <==> o.revision == session.revision && o.id == occurrenceId(o.scheduledAt)
      ensures accepted ==> Committed(old(runtime), o, protectedRevisions, runtime)
      ensures !accepted ==> runtime == old(runtime)
    {
      if o.revision != session.revision || o.id != occurrenceId(o.scheduledAt) { return false; }
      var committed := CommitCalendarOccurrence(runtime, o, protectedRevisions);
      CommitKeepsCursors(runtime, o, protectedRevisions, committed, session.revision);
      runtime := committed;
      return true;
    }
  }
}
