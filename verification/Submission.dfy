/**
 * The durable updates of one session's send operation: src/core/automatic-executor.js, src/core/runner.js,
 * src/core/execution.js and src/core/recovery.js. Each function is one repository update; tabs, logs, leases and
 * the session's other tasks are not part of it.
 */
module Submission {
  import opened Common

  type Id = Text

  datatype RunState = RUNNING | RECOVERING | PAUSED | STOPPED

  datatype Phase =
    | CHECKING | READY_TO_INSERT | INSERTING | INSERTED | PRE_SEND_WAIT | SUBMITTING
    | SENT | AMBIGUOUS | FAILED_SAFE | MANUAL_REVIEW

  /** What the page answers. */
  datatype Status =
    | READY | BUSY | SENT_VERIFIED | INSERTED_NOT_SENT | SUBMISSION_UNCERTAIN | TEMPORARY_ERROR | RATE_LIMITED
    | AUTH_REQUIRED | UNKNOWN_UI | MANUAL_REVIEW_REQUIRED

  /** Its task and prompt fingerprint never change under one id, so the id stands for all three. */
  datatype Operation = Operation(
    id: Id, phase: Phase, createdAt: nat, preSendDeadline: nat, submitStartedAt: nat, verificationDeadline: nat,
    nativeSubmitDispatched: bool)

  /** `manual`: retries are left to the owner; `managed`: a coordinator watches over the session. */
  datatype Session = Session(
    runState: RunState, operation: Option<Operation>, manual: bool, managed: bool, retryAfterAt: nat,
    retryBackoffMs: nat, busyCheckDelayMs: nat, preSendDelayMs: nat, minimumSendIntervalMs: nat)

  predicate Active(s: Session) { s.runState.RUNNING? || s.runState.RECOVERING? }

  predicate Quiesced(r: RunState) { r.PAUSED? || r.STOPPED? }

  predicate Matches(s: Session, id: Id, phase: Phase) {
    s.operation.Some? && s.operation.value.id == id && s.operation.value.phase == phase
  }

  predicate Terminal(phase: Phase) { phase.SENT? || phase.FAILED_SAFE? }

  /** The phases in which an operation can be stuck on its way to the insertion, as the runtime cycle sees it. */
  predicate StuckPhase(phase: Phase) {
    phase.CHECKING? || phase.READY_TO_INSERT? || phase.INSERTING?
  }

  function OrElse(x: nat, d: nat): nat { if x != 0 then x else d }

  function Backoff(s: Session): nat { Max(1000, OrElse(s.retryBackoffMs, 30000)) }

  /** How long an uncertain send is verified before an unattended session gives up on it. */
  function UnattendedWindow(s: Session): nat { Max(15000, Min(45000, Backoff(s) * 2)) }

  function RecoveryWindow(s: Session): nat { if s.manual then 120000 else UnattendedWindow(s) }

  function WithPhase(s: Session, phase: Phase): Session
    requires s.operation.Some?
  {
    s.(operation := Some(s.operation.value.(phase := phase)))
  }

  function ResumedUnlessQuiesced(s: Session, prior: RunState): Session {
    s.(runState := if Quiesced(prior) then prior else RUNNING)
  }

  // ---------------------------------------------------- applying an answer

  function ApplyUncertain(s: Session, now: nat): Session {
    var started := if s.operation.None? then s
                   else
                     var op := s.operation.value;
                     var deadline := OrElse(op.verificationDeadline, now + RecoveryWindow(s));
                     s.(operation := Some(op.(verificationDeadline := deadline, phase := AMBIGUOUS)));
    var retryAt := if s.operation.None? then now + Backoff(s)
                   else Min(now + Backoff(s), started.operation.value.verificationDeadline);
    started.(retryAfterAt := retryAt, runState := if Quiesced(s.runState) then s.runState else RECOVERING)
  }

  function ApplyLimited(s: Session, own: bool, retryAt: nat): Session {
    var waiting := s.(retryAfterAt := retryAt);
    if own && s.operation.Some? && s.operation.value.submitStartedAt == 0
       && !s.operation.value.phase.SENT? && !s.operation.value.phase.AMBIGUOUS?
    then WithPhase(waiting, FAILED_SAFE)
    else waiting
  }

  function ApplyReview(s: Session, own: bool, now: nat): Session {
    if s.manual then
      var held := s.(runState := if s.runState.STOPPED? then STOPPED else PAUSED);
      if own && s.operation.Some? then WithPhase(held, MANUAL_REVIEW) else held
    else
      var waiting := s.(retryAfterAt := Max(s.retryAfterAt, now + Max(5000, OrElse(s.retryBackoffMs, 30000))));
      var phase := if s.operation.Some? && s.operation.value.submitStartedAt > 0 then AMBIGUOUS else FAILED_SAFE;
      var settled := if own && s.operation.Some? then WithPhase(waiting, phase) else waiting;
      var uncertain := own && s.operation.Some? && phase.AMBIGUOUS?;
      settled.(runState := if Quiesced(s.runState) then s.runState else if uncertain then RECOVERING else RUNNING)
  }

  /**
   * `applyInteractionResult`. `own` says that the checked task is the operation's; three answers write the phase
   * without asking. `limitRetryAt` is what the profile's rate limit settings make of RATE_LIMITED.
   */
  function ApplyAnswer(s: Session, status: Status, own: bool, now: nat, limitRetryAt: nat): Session {
    match status
    case READY => s
    case BUSY => s.(retryAfterAt := now + Max(1000, OrElse(s.busyCheckDelayMs, 5000)))
    case SENT_VERIFIED => var done := s.(retryAfterAt := 0); if s.operation.Some? then WithPhase(done, SENT) else done
    case INSERTED_NOT_SENT => if s.operation.Some? then WithPhase(s, INSERTED) else s
    case SUBMISSION_UNCERTAIN => ApplyUncertain(s, now)
    case TEMPORARY_ERROR => s.(retryAfterAt := now + Backoff(s))
    case RATE_LIMITED => ApplyLimited(s, own, limitRetryAt)
    case _ => ApplyReview(s, own, now)
  }

  // ------------------------------------------------------ recovery updates

  /** When the verification of an uncertain send runs out. */
  function Deadline(s: Session, op: Operation, now: nat): nat {
    OrElse(op.verificationDeadline, OrElse(op.submitStartedAt, OrElse(op.createdAt, now)) + RecoveryWindow(s))
  }

  /** `settleExpiredOrdinaryAmbiguous`. */
  function SettleExpired(s: Session, id: Id, now: nat): Session {
    if !Matches(s, id, AMBIGUOUS) then s
    else
      var cadence := s.operation.value.submitStartedAt + Max(1000, OrElse(s.minimumSendIntervalMs, 120000));
      var wakeAt := Max(now + 5000, cadence);
      ResumedUnlessQuiesced(WithPhase(s.(retryAfterAt := Max(s.retryAfterAt, wakeAt)), FAILED_SAFE), s.runState)
  }

  /** A managed session goes on verifying the same operation. */
  function HoldManaged(s: Session, id: Id, now: nat): Session {
    if !Matches(s, id, AMBIGUOUS) then s
    else
      var wakeAt := now + Max(5000, OrElse(s.retryBackoffMs, 30000));
      var op := s.operation.value.(verificationDeadline := wakeAt + UnattendedWindow(s));
      s.(retryAfterAt := Max(s.retryAfterAt, wakeAt), operation := Some(op), runState := RECOVERING)
  }

  /** The update after a verification answer that is acted upon. */
  function ApplyVerification(s: Session, id: Id, status: Status, now: nat, limitRetryAt: nat): Session {
    if !Matches(s, id, AMBIGUOUS) then s
    else
      match status
      case SENT_VERIFIED => ResumedUnlessQuiesced(ApplyAnswer(s, SENT_VERIFIED, true, now, limitRetryAt), s.runState)
      case INSERTED_NOT_SENT =>
        var op := s.operation.value.(phase := PRE_SEND_WAIT, preSendDeadline := now + s.preSendDelayMs);
        ResumedUnlessQuiesced(s.(operation := Some(op)), s.runState)
      case _ => ApplyAnswer(s, status, true, now, limitRetryAt)
  }

  function FailedForRetry(s: Session, now: nat): Session
    requires s.operation.Some?
  {
    WithPhase(s.(retryAfterAt := Max(s.retryAfterAt, now + Backoff(s))), FAILED_SAFE)
  }

  /** `recoverInterruptedPreSubmit`: an inserted text whose wait for the send was never recorded. */
  function FailInterrupted(s: Session, id: Id, now: nat): Session {
    if Matches(s, id, INSERTED) then FailedForRetry(s, now) else s
  }

  /** `failSafeExpiredPreSubmit`: the phase was found before and after the cycle, and the retry time is over. */
  function FailStuck(s: Session, id: Id, phase: Phase, now: nat): Session {
    if Active(s) && Matches(s, id, phase) && StuckPhase(phase) && s.retryAfterAt <= now then FailedForRetry(s, now) else s
  }

  /** After PREPARE_SEND answered something other than READY. */
  function HoldPrepared(s: Session, id: Id, status: Status, now: nat, limitRetryAt: nat): Session {
    if !Matches(s, id, PRE_SEND_WAIT) then s
    else if status.INSERTED_NOT_SENT? then
      s.(operation := Some(s.operation.value.(preSendDeadline := now + Max(500, s.busyCheckDelayMs))))
    else ApplyAnswer(s, status, true, now, limitRetryAt)
  }

  // -------------------------------------------------------- the coordinator

  predicate MayBegin(s: Session) { s.operation.None? || Terminal(s.operation.value.phase) }

  function Begin(s: Session, id: Id, now: nat): Session {
    s.(operation := Some(Operation(id, CHECKING, now, 0, 0, 0, false)))
  }

  predicate MayCheckpoint(s: Session, id: Id, now: nat) {
    Active(s) && Matches(s, id, PRE_SEND_WAIT) && s.operation.value.preSendDeadline <= now
  }

  /** The durable mark in front of the one physical send. */
  function Checkpoint(s: Session, now: nat): Session
    requires s.operation.Some?
  {
    s.(operation := Some(s.operation.value.(phase := SUBMITTING, submitStartedAt := now)))
  }

  /** What the send came to; `noEffect`: the page proved that nothing was sent. */
  datatype SubmitResult = SubmitResult(status: Status, noEffect: bool)

  predicate ProvenNoEffect(s: Session, r: SubmitResult) {
    && r.noEffect && r.status.TEMPORARY_ERROR? && s.operation.Some?
    && s.operation.value.phase.SUBMITTING? && !s.operation.value.nativeSubmitDispatched
  }

  /** The closing update of `submitWithDurableCheckpoint`, for the operation it was called with. */
  function FinishSubmit(s: Session, r: SubmitResult, now: nat): Session
    requires s.operation.Some?
  {
    if ProvenNoEffect(s, r) then
      var op := s.operation.value.(phase := FAILED_SAFE, submitStartedAt := 0);
      ApplyAnswer(s.(operation := Some(op)), TEMPORARY_ERROR, true, now, 0)
    else if r.status.SENT_VERIFIED? then ApplyAnswer(s, SENT_VERIFIED, true, now, 0)
    else ApplyAnswer(s, SUBMISSION_UNCERTAIN, true, now, 0)
  }

  function MarkInserted(s: Session, now: nat): Session
    requires s.operation.Some?
  {
    s.(operation := Some(s.operation.value.(phase := PRE_SEND_WAIT, preSendDeadline := now + s.preSendDelayMs)))
  }

  // ------------------------------------------------------------ cold start

  /** `healUnattendedManualHolds` on the operation. */
  function HealHold(s: Session, now: nat, resume: bool): Session {
    if s.manual || s.operation.None? || !s.operation.value.phase.MANUAL_REVIEW? then s
    else
      var phase := if s.operation.value.submitStartedAt > 0 then AMBIGUOUS else FAILED_SAFE;
      var runState :=
        if resume && s.runState.PAUSED? then (if phase.AMBIGUOUS? then RECOVERING else RUNNING)
        else if s.runState.RUNNING? && phase.AMBIGUOUS? then RECOVERING
        else s.runState;
      var retryAt := if phase.AMBIGUOUS? then now else now + Backoff(s);
      WithPhase(s.(runState := runState, retryAfterAt := Max(s.retryAfterAt, retryAt)), phase)
  }

  /** `reconcileStateForStartup`; `lease`: a native send was provably stopped before its effect. */
  function ColdStart(s: Session, now: nat, resume: bool, lease: bool): Session {
    var healed := HealHold(s, now, resume);
    var woken := if healed.runState.RUNNING? then healed.(runState := RECOVERING) else healed;
    if woken.operation.None? || !woken.operation.value.phase.SUBMITTING? then woken
    else if lease && !woken.operation.value.nativeSubmitDispatched then
      var op := woken.operation.value.(phase := FAILED_SAFE, submitStartedAt := 0, verificationDeadline := 0);
      woken.(operation := Some(op), retryAfterAt := Max(woken.retryAfterAt, now + Backoff(woken)))
    else WithPhase(woken, AMBIGUOUS)
  }

  // ------------------------------------------------- what an update means

  /** No update touches the settings of the session or the identity and history of its operation. */
  ghost predicate SameSend(s: Session, t: Session) {
    && t == s.(runState := t.runState, operation := t.operation, retryAfterAt := t.retryAfterAt)
    && (t.operation.Some? <==> s.operation.Some?)
    && (s.operation.Some? ==>
          var op := t.operation.value;
          op == s.operation.value.(phase := op.phase, submitStartedAt := op.submitStartedAt,
                                   verificationDeadline := op.verificationDeadline))
  }

  /** Nothing can be sent from here, whatever the clock says. */
  ghost predicate Unsendable(s: Session) {
    forall id, now :: !MayCheckpoint(s, id, now)
  }

  /**
   * What any page answer may do. It never rearms an operation nor forgets that a send was started; it fails one
   * safe only before its send, calls it sent only on the page's word, and gives it a deadline at most once. An answer
   * to somebody else's check says nothing about the operation when it asks for review or reports a limit. A session
   * its owner stopped or paused stays so, and only a session with manual retries is ever held.
   */
  ghost predicate AnswerEffect(s: Session, status: Status, own: bool, now: nat, t: Session) {
    && SameSend(s, t)
    && (Quiesced(s.runState) ==> t.runState == s.runState)
    && (!Quiesced(s.runState) && Quiesced(t.runState) ==> s.manual && t.runState.PAUSED?)
    && (status.BUSY? || status.TEMPORARY_ERROR? ==> t.retryAfterAt >= now + 1000)
    && (s.operation.Some? ==> AnswerEffectOn(s.operation.value, status, own, now, t))
  }

  ghost predicate AnswerEffectOn(op: Operation, status: Status, own: bool, now: nat, t: Session)
    requires t.operation.Some?
  {
    var next := t.operation.value;
    && next.submitStartedAt == op.submitStartedAt
    && (next != op ==> !status.READY? && !status.BUSY? && !status.TEMPORARY_ERROR?)
    && (next != op && !own ==> status.SENT_VERIFIED? || status.INSERTED_NOT_SENT? || status.SUBMISSION_UNCERTAIN?)
    && (next.phase.SENT? && !op.phase.SENT? ==> status.SENT_VERIFIED?)
    && (next.phase.PRE_SEND_WAIT? ==> op.phase.PRE_SEND_WAIT?)
    && (next.phase.FAILED_SAFE? && !op.phase.FAILED_SAFE? ==> op.submitStartedAt == 0)
    && (next.phase.MANUAL_REVIEW? && !op.phase.MANUAL_REVIEW? ==> t.manual)
    && (next.verificationDeadline != op.verificationDeadline ==> op.verificationDeadline == 0 && status.SUBMISSION_UNCERTAIN?)
    && (status.SUBMISSION_UNCERTAIN? ==>
          next.phase.AMBIGUOUS? && next.verificationDeadline > 0 && t.retryAfterAt <= next.verificationDeadline)
  }

  lemma AnswerMeans(s: Session, status: Status, own: bool, now: nat, limitRetryAt: nat)
    ensures AnswerEffect(s, status, own, now, ApplyAnswer(s, status, own, now, limitRetryAt))
  {
  }

  /**
   * Giving up on an uncertain send: the operation ends failed safe with its history intact, nothing is left to send,
   * and the next attempt waits for the cadence and at least five seconds. Any other session is left alone.
   */
  ghost predicate SettleEffect(s: Session, id: Id, now: nat, t: Session) {
    if !Matches(s, id, AMBIGUOUS) then t == s
    else
      var earliest := s.operation.value.submitStartedAt + Max(1000, OrElse(s.minimumSendIntervalMs, 120000));
      && SameSend(s, t) && Matches(t, id, FAILED_SAFE) && Unsendable(t)
      && t.operation.value.submitStartedAt == s.operation.value.submitStartedAt
      && t.operation.value.verificationDeadline == s.operation.value.verificationDeadline
      && t.retryAfterAt >= s.retryAfterAt && t.retryAfterAt >= now + 5000 && t.retryAfterAt >= earliest
      && t.retryAfterAt in {s.retryAfterAt, now + 5000, earliest}
      && (if Quiesced(s.runState) then t.runState == s.runState else t.runState.RUNNING?)
  }

  lemma SettlingMeans(s: Session, id: Id, now: nat)
    ensures SettleEffect(s, id, now, SettleExpired(s, id, now))
  {
  }

  /** The mark lets one send through: it is recorded with its time, and from then on nothing may be sent. */
  ghost predicate MarkEffect(s: Session, id: Id, now: nat, t: Session) {
    && SameSend(s, t) && t.runState == s.runState && t.retryAfterAt == s.retryAfterAt
    && Matches(t, id, SUBMITTING) && t.operation.value.submitStartedAt == now && Unsendable(t)
    && s.operation.value.verificationDeadline == t.operation.value.verificationDeadline
  }

  lemma MarkMeans(s: Session, id: Id, now: nat)
    requires MayCheckpoint(s, id, now)
    ensures MarkEffect(s, id, now, Checkpoint(s, now))
  {
  }

  /**
   * How a send comes back: sent on the page's word; failed safe, as if never started, exactly on the proof that it
   * had no effect; in every other case uncertain, remembered as started, with a deadline and a check no later than
   * it. Whatever it is, nothing can be sent from there.
   */
  ghost predicate CloseEffect(s: Session, r: SubmitResult, now: nat, t: Session)
    requires s.operation.Some?
  {
    && SameSend(s, t) && Unsendable(t)
    && var (op, next) := (s.operation.value, t.operation.value);
    && (next.phase.SENT? <==> r.status.SENT_VERIFIED?)
    && (next.phase.FAILED_SAFE? <==>
          r.noEffect && r.status.TEMPORARY_ERROR? && op.phase.SUBMITTING? && !op.nativeSubmitDispatched)
    && (!next.phase.SENT? && !next.phase.FAILED_SAFE? ==> next.phase.AMBIGUOUS?)
    && next.submitStartedAt == (if next.phase.FAILED_SAFE? then 0 else op.submitStartedAt)
    && (next.phase.FAILED_SAFE? ==> t.retryAfterAt >= now + 1000)
    && (next.phase.AMBIGUOUS? ==>
          && t.retryAfterAt <= next.verificationDeadline
          && (if op.verificationDeadline > 0 then next.verificationDeadline == op.verificationDeadline
              else now + 15000 <= next.verificationDeadline <= now + 120000))
  }

  lemma ClosingMeans(s: Session, r: SubmitResult, now: nat)
    requires s.operation.Some?
    ensures CloseEffect(s, r, now, FinishSubmit(s, r, now))
  {
    var t := FinishSubmit(s, r, now);
    assert SameSend(s, t);
  }

  /**
   * A cold start: no send is left half done and no session runs before it has recovered. What was waiting to be sent
   * still is, and nothing else becomes so; a send that was started is failed safe only if it provably had no effect;
   * every other operation is left alone, except an unattended hold.
   */
  ghost predicate RestartEffect(s: Session, now: nat, resume: bool, lease: bool, t: Session) {
    && SameSend(s, t) && !t.runState.RUNNING? && t.retryAfterAt >= s.retryAfterAt
    && (Quiesced(s.runState) && !resume ==> t.runState == s.runState)
    && (forall id, n :: MayCheckpoint(t, id, n) ==> Matches(s, id, PRE_SEND_WAIT))
    && (s.operation.Some? ==>
          var (op, next) := (s.operation.value, t.operation.value);
          && !next.phase.SUBMITTING?
          && (next != op ==> op.phase.SUBMITTING? || (op.phase.MANUAL_REVIEW? && !s.manual))
          && (next != op ==> next.phase.AMBIGUOUS? || next.phase.FAILED_SAFE?)
          && (next != op && next.phase.FAILED_SAFE? ==>
                next.submitStartedAt == 0 && t.retryAfterAt >= now + 1000
                && (op.submitStartedAt > 0 ==> op.phase.SUBMITTING? && lease && !op.nativeSubmitDispatched))
          && (next.phase.AMBIGUOUS? ==> next.submitStartedAt == op.submitStartedAt
                                        && next.verificationDeadline == op.verificationDeadline))
  }

  lemma RestartKeepsTheRest(s: Session, now: nat, resume: bool, lease: bool)
    ensures var t := ColdStart(s, now, resume, lease);
            && SameSend(s, t) && !t.runState.RUNNING? && t.retryAfterAt >= s.retryAfterAt
            && (Quiesced(s.runState) && !resume ==> t.runState == s.runState)
  {
  }

  lemma RestartMeans(s: Session, now: nat, resume: bool, lease: bool)
    ensures RestartEffect(s, now, resume, lease, ColdStart(s, now, resume, lease))
  {
    RestartKeepsTheRest(s, now, resume, lease);
    hide SameSend;
  }

  /** A second cold start finds nothing left to do, whenever it comes. */
  lemma RestartIsIdempotent(s: Session, now: nat, resume: bool, lease: bool, later: nat, resume': bool, lease': bool)
    ensures var t := ColdStart(s, now, resume, lease); ColdStart(t, later, resume', lease') == t
  {
  }

  // ------------------------------------------------- the imperative updates

  /** A session as the repository hands it out in a draft: the updates assign its fields. */
  class Draft {
    var runState: RunState
    var operation: Option<Operation>
    var retryAfterAt: nat
    const manual: bool
    const managed: bool
    const retryBackoffMs: nat
    const busyCheckDelayMs: nat
    const preSendDelayMs: nat
    const minimumSendIntervalMs: nat

    constructor (s: Session)
      ensures Value() == s
    {
      runState, operation, retryAfterAt := s.runState, s.operation, s.retryAfterAt;
      manual, managed, retryBackoffMs := s.manual, s.managed, s.retryBackoffMs;
      busyCheckDelayMs, preSendDelayMs, minimumSendIntervalMs := s.busyCheckDelayMs, s.preSendDelayMs, s.minimumSendIntervalMs;
    }

    function Value(): Session
      reads this
    {
      Session(runState, operation, manual, managed, retryAfterAt, retryBackoffMs, busyCheckDelayMs, preSendDelayMs,
              minimumSendIntervalMs)
    }

    method SetPhase(phase: Phase)
      requires operation.Some?
      modifies this`operation
      ensures Value() == WithPhase(old(Value()), phase)
    {
      operation := Some(operation.value.(phase := phase));
    }

    method ApplyInteractionResult(status: Status, own: bool, now: nat, limitRetryAt: nat)
      modifies this
      ensures AnswerEffect(old(Value()), status, own, now, Value())
      ensures Value() == ApplyAnswer(old(Value()), status, own, now, limitRetryAt)
    {
      AnswerMeans(Value(), status, own, now, limitRetryAt);
      hide AnswerEffect;
      match status
      case READY =>
      case BUSY => retryAfterAt := now + Max(1000, OrElse(busyCheckDelayMs, 5000));
      case SENT_VERIFIED =>
        retryAfterAt := 0;
        if operation.Some? { SetPhase(SENT); }
      case INSERTED_NOT_SENT =>
        if operation.Some? { SetPhase(INSERTED); }
      case SUBMISSION_UNCERTAIN =>
        BecomesUncertain(now);
      case TEMPORARY_ERROR => retryAfterAt := now + Backoff(Value());
      case RATE_LIMITED =>
        retryAfterAt := limitRetryAt;
        if own && operation.Some? && operation.value.submitStartedAt == 0
           && !operation.value.phase.SENT? && !operation.value.phase.AMBIGUOUS? {
          SetPhase(FAILED_SAFE);
        }
      case _ => NeedsReview(own, now);
    }

    method NeedsReview(own: bool, now: nat)
      modifies this
      ensures Value() == ApplyReview(old(Value()), own, now)
    {
      if manual {
        if !runState.STOPPED? { runState := PAUSED; }
        if own && operation.Some? { SetPhase(MANUAL_REVIEW); }
        return;
      }
      retryAfterAt := Max(retryAfterAt, now + Max(5000, OrElse(retryBackoffMs, 30000)));
      var uncertain := false;
      if own && operation.Some? {
        uncertain := operation.value.submitStartedAt > 0;
        SetPhase(if uncertain then AMBIGUOUS else FAILED_SAFE);
      }
      if !Quiesced(runState) { runState := if uncertain then RECOVERING else RUNNING; }
    }

    method BecomesUncertain(now: nat)
      modifies this
      ensures Value() == ApplyUncertain(old(Value()), now)
    {
      if operation.Some? && operation.value.verificationDeadline == 0 {
        operation := Some(operation.value.(verificationDeadline := now + RecoveryWindow(Value())));
      }
      retryAfterAt := now + Backoff(Value());
      if operation.Some? { retryAfterAt := Min(retryAfterAt, operation.value.verificationDeadline); }
      if !Quiesced(runState) { runState := RECOVERING; }
      if operation.Some? { SetPhase(AMBIGUOUS); }
    }

    method SettleExpiredOrdinaryAmbiguous(id: Id, now: nat) returns (settled: bool)
      modifies this
      ensures settled == Matches(old(Value()), id, AMBIGUOUS)
      ensures SettleEffect(old(Value()), id, now, Value())
      ensures Value() == SettleExpired(old(Value()), id, now)
    {
      SettlingMeans(Value(), id, now);
      if !Matches(Value(), id, AMBIGUOUS) { return false; }
      var cadence := operation.value.submitStartedAt + Max(1000, OrElse(minimumSendIntervalMs, 120000));
      retryAfterAt := Max(retryAfterAt, Max(now + 5000, cadence));
      SetPhase(FAILED_SAFE);
      runState := if Quiesced(runState) then runState else RUNNING;
      return true;
    }

    method MarkSubmitting(id: Id, now: nat) returns (admitted: bool)
      modifies this`operation
      ensures admitted == MayCheckpoint(old(Value()), id, now)
      ensures admitted ==> MarkEffect(old(Value()), id, now, Value())
      ensures Value() == if admitted then Checkpoint(old(Value()), now) else old(Value())
    {
      if !MayCheckpoint(Value(), id, now) { return false; }
      MarkMeans(Value(), id, now);
      operation := Some(operation.value.(phase := SUBMITTING, submitStartedAt := now));
      return true;
    }

    method CloseSubmission(r: SubmitResult, now: nat)
      requires operation.Some?
      modifies this
      ensures CloseEffect(old(Value()), r, now, Value())
      ensures Value() == FinishSubmit(old(Value()), r, now)
    {
      ClosingMeans(Value(), r, now);
      hide CloseEffect;
      if ProvenNoEffect(Value(), r) {
        operation := Some(operation.value.(phase := FAILED_SAFE, submitStartedAt := 0));
        ApplyInteractionResult(TEMPORARY_ERROR, true, now, 0);
        return;
      }
      ApplyInteractionResult(if r.status.SENT_VERIFIED? then SENT_VERIFIED else SUBMISSION_UNCERTAIN, true, now, 0);
    }

    method ReconcileForStartup(now: nat, resume: bool, lease: bool)
      modifies this
      ensures RestartEffect(old(Value()), now, resume, lease, Value())
      ensures Value() == ColdStart(old(Value()), now, resume, lease)
    {
      RestartMeans(Value(), now, resume, lease);
      hide RestartEffect;
      if !manual && operation.Some? && operation.value.phase.MANUAL_REVIEW? {
        var uncertain := operation.value.submitStartedAt > 0;
        SetPhase(if uncertain then AMBIGUOUS else FAILED_SAFE);
        retryAfterAt := Max(retryAfterAt, if uncertain then now else now + Backoff(Value()));
        if resume && runState.PAUSED? {
          runState := if uncertain then RECOVERING else RUNNING;
        } else if runState.RUNNING? && uncertain {
          runState := RECOVERING;
        }
      }
      if runState.RUNNING? { runState := RECOVERING; }
      if operation.Some? && operation.value.phase.SUBMITTING? {
        if lease && !operation.value.nativeSubmitDispatched {
          operation := Some(operation.value.(phase := FAILED_SAFE, submitStartedAt := 0, verificationDeadline := 0));
          retryAfterAt := Max(retryAfterAt, now + Backoff(Value()));
        } else {
          SetPhase(AMBIGUOUS);
        }
      }
    }
  }
}
