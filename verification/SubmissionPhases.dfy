/**
 * Which step of the executor moves an operation into which phase: src/core/automatic-executor.js, with
 * src/core/runner.js and src/core/runtime-execution.js around it.
 */
module SubmissionPhases {
  import opened Common
  import opened Submission
  import opened SubmissionRuns

  /** This step moves this operation into this phase. */
  predicate Enters(w: World, step: Step, id: Id, phase: Phase)
    requires Can(w, step)
  {
    Matches(Do(w, step).session, id, phase) && !Matches(w.session, id, phase)
  }

  /** The owner neither paused nor stopped it. */
  predicate Works(s: Session) { s.runState != PAUSED && s.runState != STOPPED }

  // -------------------------------------------------- after a verification

  predicate VerifiedInTime(f: Flow, now: nat)
    requires f.Verified?
  {
    now < f.deadline || f.status.SENT_VERIFIED?
  }

  /**
   * The update after a verification gives an operation back its send exactly if it still is that uncertain operation,
   * the page says that its text is inserted and not sent, and says so before the deadline.
   */
  lemma RearmedExactly(w: World, now: nat, limitRetryAt: nat, id: Id)
    requires w.flow.Verified?
    ensures Enters(w, AfterVerify(now, limitRetryAt), id, PRE_SEND_WAIT) <==>
              && id == w.flow.id && Matches(w.session, id, AMBIGUOUS)
              && w.flow.status.INSERTED_NOT_SENT? && now < w.flow.deadline
  {
    AnswersNeverRearm(w.session, w.flow.status, true, now, limitRetryAt, id);
    AnswersNeverRearm(w.session, MANUAL_REVIEW_REQUIRED, true, now, limitRetryAt, id);
    hide ApplyReview, ApplyLimited, ApplyUncertain;
  }

  /** A word that it was sent ends the operation; any other answer in time leaves it unsent, and uncertain unless reviewed. */
  lemma TimelyAnswer(w: World, now: nat, limitRetryAt: nat)
    requires w.flow.Verified? && VerifiedInTime(w.flow, now) && Matches(w.session, w.flow.id, AMBIGUOUS)
    ensures var (s, t, id) := (w.session, Do(w, AfterVerify(now, limitRetryAt)).session, w.flow.id);
            match w.flow.status
            case SENT_VERIFIED =>
              && Matches(t, id, SENT) && t.retryAfterAt == 0
              && t.runState == (if Quiesced(s.runState) then s.runState else RUNNING)
            case INSERTED_NOT_SENT =>
              && Matches(t, id, PRE_SEND_WAIT) && t.operation.value.preSendDeadline == now + s.preSendDelayMs
              && t.runState == (if Quiesced(s.runState) then s.runState else RUNNING)
            case AUTH_REQUIRED => ReviewedTo(s, t, id)
            case UNKNOWN_UI => ReviewedTo(s, t, id)
            case MANUAL_REVIEW_REQUIRED => ReviewedTo(s, t, id)
            case _ => Matches(t, id, AMBIGUOUS)
    ensures Do(w, AfterVerify(now, limitRetryAt)).flow == Idle
  {
  }

  /** Review: held for the owner of a session with manual retries, else uncertain if its send was started. */
  predicate ReviewedTo(s: Session, t: Session, id: Id)
    requires s.operation.Some?
  {
    if s.manual then Matches(t, id, MANUAL_REVIEW) && Quiesced(t.runState)
    else Matches(t, id, if s.operation.value.submitStartedAt > 0 then AMBIGUOUS else FAILED_SAFE)
  }

  /**
   * At or past the deadline, without the word that it was sent, the answer counts for nothing: a session with manual
   * retries is held for review, a managed one goes on verifying with a later deadline, any other gives the send up.
   */
  lemma LateAnswer(w: World, now: nat, limitRetryAt: nat, later: nat)
    requires w.flow.Verified? && !VerifiedInTime(w.flow, now) && Matches(w.session, w.flow.id, AMBIGUOUS)
    ensures var next := Do(w, AfterVerify(now, limitRetryAt)); var id := w.flow.id;
            && (w.flow.manual ==> next.flow == Idle && ReviewedTo(w.session, next.session, id))
            && (w.flow.manual && w.session.manual ==> Matches(next.session, id, MANUAL_REVIEW) && !Works(next.session))
            && (!w.flow.manual ==> next.session == w.session)
            && (!w.flow.manual && w.flow.managed ==>
                  Can(next, Hold(later)) &&
                  var held := Do(next, Hold(later));
                  && held.flow == Idle && Matches(held.session, id, AMBIGUOUS) && held.session.runState.RECOVERING?
                  && var wakeAt := later + (if w.session.retryBackoffMs == 0 then 30000 else Max(5000, w.session.retryBackoffMs));
                     && held.session.retryAfterAt == Max(w.session.retryAfterAt, wakeAt)
                     && wakeAt + 15000 <= held.session.operation.value.verificationDeadline <= wakeAt + 45000)
            && (!w.flow.manual && !w.flow.managed ==>
                  Can(next, Settle(later)) &&
                  var settled := Do(next, Settle(later));
                  settled.flow == Idle && Matches(settled.session, id, FAILED_SAFE))
  {
  }

  // ------------------------------------------------- every way into a phase

  /**
   * An operation comes to wait for its send in two ways only: its insertion is proven, or a verification in time says
   * that it is inserted and not sent.
   */
  predicate ArmedBy(w: World, step: Step, id: Id)
    requires Can(w, step)
  {
    match step
    case AfterInsert(_, _, _) => w.flow.proven && w.flow.id == id && (Matches(w.session, id, INSERTING) || Matches(w.session, id, INSERTED))
    case AfterVerify(now, _) =>
      w.flow.id == id && Matches(w.session, id, AMBIGUOUS) && w.flow.status.INSERTED_NOT_SENT? && now < w.flow.deadline
    case _ => false
  }

  /** A send begins only at the durable mark: an active session, this operation waiting, its delay over. */
  predicate SubmittedBy(w: World, step: Step, id: Id)
    requires Can(w, step)
  {
    && step.PassCheckpoint? && w.flow.id == id && Works(w.session)
    && Matches(w.session, id, PRE_SEND_WAIT) && w.session.operation.value.preSendDeadline <= step.now
  }

  predicate Word(status: Status, s: Session, id: Id) {
    status.SENT_VERIFIED? && s.operation.Some? && s.operation.value.id == id && !s.operation.value.phase.SENT?
  }

  /** An operation counts as sent only on the page's word, to a question about it or to any check or insertion. */
  predicate SentBy(w: World, step: Step, id: Id)
    requires Can(w, step)
  {
    match step
    case AfterVerify(_, _) => w.flow.status.SENT_VERIFIED? && w.flow.id == id && Matches(w.session, id, AMBIGUOUS)
    case AfterPrepare(_, _) => w.flow.status.SENT_VERIFIED? && w.flow.id == id && Matches(w.session, id, PRE_SEND_WAIT)
    case AfterSubmit(_) => w.flow.id == id && Word(w.flow.result.status, w.session, id)
    case AfterCheck(_, _, _) => Word(w.flow.status, w.session, id)
    case AfterInsert(_, _, _) => !w.flow.proven && Word(w.flow.status, w.session, id)
    case _ => false
  }

  /** The statuses that ask for review. */
  predicate AsksReview(status: Status) {
    status.AUTH_REQUIRED? || status.UNKNOWN_UI? || status.MANUAL_REVIEW_REQUIRED?
  }

  /** An answer about an operation whose send never started gives it up: a limit, or a review with nobody to review. */
  predicate GivesUp(s: Session, status: Status, own: bool, id: Id) {
    && own && s.operation.Some? && s.operation.value.id == id && s.operation.value.submitStartedAt == 0
    && ((status.RATE_LIMITED? && !s.operation.value.phase.SENT? && !s.operation.value.phase.AMBIGUOUS?)
        || (AsksReview(status) && !s.manual))
    && !s.operation.value.phase.FAILED_SAFE?
  }

  /** Every way in which an operation is given up. */
  predicate GivenUpBy(w: World, step: Step, id: Id)
    requires Can(w, step)
  {
    match step
    case Settle(_) => w.flow.id == id && Matches(w.session, id, AMBIGUOUS)
    case AfterVerify(now, _) =>
      && w.flow.id == id && Matches(w.session, id, AMBIGUOUS) && (VerifiedInTime(w.flow, now) || w.flow.manual)
      && GivesUp(w.session, if VerifiedInTime(w.flow, now) then w.flow.status else MANUAL_REVIEW_REQUIRED, true, id)
    case AfterPrepare(_, _) =>
      w.flow.id == id && Matches(w.session, id, PRE_SEND_WAIT) && GivesUp(w.session, w.flow.status, true, id)
    case AfterSubmit(_) =>
      && w.flow.id == id && Matches(w.session, id, SUBMITTING) && !w.session.operation.value.nativeSubmitDispatched
      && w.flow.result.noEffect && w.flow.result.status.TEMPORARY_ERROR?
    case FailInserted(_) => w.flow.id == id && Matches(w.session, id, INSERTED)
    case FailExpired(now) =>
      && w.flow.id == id && Matches(w.session, id, w.flow.phase) && w.session.retryAfterAt <= now && Works(w.session)
      && (w.flow.phase.CHECKING? || w.flow.phase.READY_TO_INSERT? || w.flow.phase.INSERTING?)
    case AfterCheck(own, _, _) => GivesUp(w.session, w.flow.status, own, id)
    case AfterInsert(own, _, _) =>
      && !w.flow.proven
      && (GivesUp(w.session, w.flow.status, own, id)
          || (w.flow.status.INSERTED_NOT_SENT? && w.flow.id == id && w.session.operation.Some?
              && w.session.operation.value.id == id && !w.session.operation.value.phase.FAILED_SAFE?))
    case Crash(_, _, lease) =>
      || (Matches(w.session, id, SUBMITTING) && lease && !w.session.operation.value.nativeSubmitDispatched)
      || (Matches(w.session, id, MANUAL_REVIEW) && !w.session.manual && w.session.operation.value.submitStartedAt == 0)
    case _ => false
  }

  predicate Holds(s: Session, status: Status, own: bool, id: Id) {
    && own && AsksReview(status) && s.manual && s.operation.Some? && s.operation.value.id == id
    && !s.operation.value.phase.MANUAL_REVIEW?
  }

  /** Held for review exactly where the owner of a session with manual retries is asked to look at this operation. */
  predicate HeldBy(w: World, step: Step, id: Id)
    requires Can(w, step)
  {
    match step
    case AfterVerify(now, _) =>
      && w.flow.id == id && Matches(w.session, id, AMBIGUOUS) && (VerifiedInTime(w.flow, now) || w.flow.manual)
      && Holds(w.session, if VerifiedInTime(w.flow, now) then w.flow.status else MANUAL_REVIEW_REQUIRED, true, id)
    case AfterPrepare(_, _) => w.flow.id == id && Matches(w.session, id, PRE_SEND_WAIT) && Holds(w.session, w.flow.status, true, id)
    case AfterCheck(own, _, _) => Holds(w.session, w.flow.status, own, id)
    case AfterInsert(own, _, _) => !w.flow.proven && Holds(w.session, w.flow.status, own, id)
    case _ => false
  }

  predicate Uncertains(s: Session, status: Status, own: bool, id: Id) {
    && s.operation.Some? && s.operation.value.id == id && !s.operation.value.phase.AMBIGUOUS?
    && (status.SUBMISSION_UNCERTAIN? || (own && AsksReview(status) && !s.manual && s.operation.value.submitStartedAt > 0))
  }

  /** Every way in which an operation's send becomes uncertain. */
  predicate UncertainBy(w: World, step: Step, id: Id)
    requires Can(w, step)
  {
    match step
    case AfterPrepare(_, _) => w.flow.id == id && Matches(w.session, id, PRE_SEND_WAIT) && Uncertains(w.session, w.flow.status, true, id)
    case AfterSubmit(_) =>
      && w.flow.id == id && w.session.operation.Some? && w.session.operation.value.id == id
      && !w.session.operation.value.phase.AMBIGUOUS? && !w.flow.result.status.SENT_VERIFIED? && !GivenUpBy(w, step, id)
    case AfterCheck(own, _, _) => Uncertains(w.session, w.flow.status, own, id)
    case AfterInsert(own, _, _) => !w.flow.proven && Uncertains(w.session, w.flow.status, own, id)
    case Crash(_, _, lease) =>
      || (Matches(w.session, id, SUBMITTING) && !GivenUpBy(w, step, id))
      || (Matches(w.session, id, MANUAL_REVIEW) && !w.session.manual && w.session.operation.value.submitStartedAt > 0)
    case _ => false
  }

  /** For every step of the executor, the ways into the five phases that matter. */
  ghost predicate PhasesAsSaid(w: World, step: Step, id: Id)
    requires Can(w, step)
  {
    && (Enters(w, step, id, PRE_SEND_WAIT) <==> ArmedBy(w, step, id))
    && (Enters(w, step, id, SUBMITTING) <==> SubmittedBy(w, step, id))
    && (Enters(w, step, id, SENT) <==> SentBy(w, step, id))
    && (Enters(w, step, id, FAILED_SAFE) <==> GivenUpBy(w, step, id))
    && (Enters(w, step, id, MANUAL_REVIEW) <==> HeldBy(w, step, id))
    && (Enters(w, step, id, AMBIGUOUS) <==> UncertainBy(w, step, id))
  }

  predicate Comes(s: Session, t: Session, id: Id, phase: Phase) { Matches(t, id, phase) && !Matches(s, id, phase) }

  /** What one answer does to the phase. */
  ghost predicate AnswerPhases(s: Session, status: Status, own: bool, t: Session, id: Id) {
    && !Comes(s, t, id, PRE_SEND_WAIT) && !Comes(s, t, id, SUBMITTING)
    && (Comes(s, t, id, SENT) <==> Word(status, s, id))
    && (Comes(s, t, id, FAILED_SAFE) <==> GivesUp(s, status, own, id))
    && (Comes(s, t, id, MANUAL_REVIEW) <==> Holds(s, status, own, id))
    && (Comes(s, t, id, AMBIGUOUS) <==> Uncertains(s, status, own, id))
  }

  lemma AnswerMoves(s: Session, status: Status, own: bool, now: nat, limitRetryAt: nat, id: Id)
    ensures AnswerPhases(s, status, own, ApplyAnswer(s, status, own, now, limitRetryAt), id)
  {
  }

  lemma VerifiedMoves(s: Session, target: Id, status: Status, now: nat, limitRetryAt: nat, id: Id)
    ensures var t := ApplyVerification(s, target, status, now, limitRetryAt); var here := target == id && Matches(s, id, AMBIGUOUS);
            && (Comes(s, t, id, PRE_SEND_WAIT) <==> here && status.INSERTED_NOT_SENT?)
            && !Comes(s, t, id, SUBMITTING) && !Comes(s, t, id, AMBIGUOUS)
            && (Comes(s, t, id, SENT) <==> here && status.SENT_VERIFIED?)
            && (Comes(s, t, id, FAILED_SAFE) <==> here && GivesUp(s, status, true, id))
            && (Comes(s, t, id, MANUAL_REVIEW) <==> here && Holds(s, status, true, id))
  {
    AnswerMoves(s, status, true, now, limitRetryAt, id);
    hide ApplyReview, ApplyLimited, ApplyUncertain;
  }

  lemma VerifyMoves(w: World, now: nat, limitRetryAt: nat, id: Id)
    requires w.flow.Verified?
    ensures PhasesAsSaid(w, AfterVerify(now, limitRetryAt), id)
  {
    VerifiedMoves(w.session, w.flow.id, w.flow.status, now, limitRetryAt, id);
    VerifiedMoves(w.session, w.flow.id, MANUAL_REVIEW_REQUIRED, now, limitRetryAt, id);
    hide ApplyVerification, GivesUp, Holds, Matches;
  }

  lemma PrepareMoves(w: World, now: nat, limitRetryAt: nat, id: Id)
    requires w.flow.Prepared?
    ensures PhasesAsSaid(w, AfterPrepare(now, limitRetryAt), id)
  {
    AnswerMoves(w.session, w.flow.status, true, now, limitRetryAt, id);
    hide ApplyAnswer;
  }

  lemma SubmitMoves(w: World, now: nat, id: Id)
    requires w.flow.Answered?
    ensures PhasesAsSaid(w, AfterSubmit(now), id)
  {
  }

  lemma CheckMoves(w: World, step: Step, id: Id)
    requires step.AfterCheck? && Can(w, step)
    ensures PhasesAsSaid(w, step, id)
  {
    AnswerMoves(w.session, w.flow.status, step.own, step.now, step.limitRetryAt, id);
    hide ApplyAnswer;
  }

  lemma InsertedMoves(s: Session, f: Flow, own: bool, now: nat, limitRetryAt: nat, id: Id)
    requires f.Inserted?
    ensures var t := AfterInsertSession(s, f, own, now, limitRetryAt);
            && (Comes(s, t, id, PRE_SEND_WAIT) <==> f.proven && f.id == id && (Matches(s, id, INSERTING) || Matches(s, id, INSERTED)))
            && !Comes(s, t, id, SUBMITTING)
            && (Comes(s, t, id, SENT) <==> !f.proven && Word(f.status, s, id))
            && (Comes(s, t, id, FAILED_SAFE) <==>
                  !f.proven && (GivesUp(s, f.status, own, id) ||
                                (f.status.INSERTED_NOT_SENT? && f.id == id && s.operation.Some?
                                 && s.operation.value.id == id && !s.operation.value.phase.FAILED_SAFE?)))
            && (Comes(s, t, id, MANUAL_REVIEW) <==> !f.proven && Holds(s, f.status, own, id))
            && (Comes(s, t, id, AMBIGUOUS) <==> !f.proven && Uncertains(s, f.status, own, id))
  {
    AnswerMoves(s, f.status, own, now, limitRetryAt, id);
    hide ApplyAnswer;
  }

  lemma InsertMoves(w: World, step: Step, id: Id)
    requires step.AfterInsert? && Can(w, step)
    ensures PhasesAsSaid(w, step, id)
  {
    InsertedMoves(w.session, w.flow, step.own, step.now, step.limitRetryAt, id);
    hide AfterInsertSession, GivesUp, Holds, Uncertains, Word, Matches;
  }

  lemma ColdMoves(s: Session, now: nat, resume: bool, lease: bool, id: Id)
    ensures var t := ColdStart(s, now, resume, lease);
            var unsent := Matches(s, id, SUBMITTING) && lease && !s.operation.value.nativeSubmitDispatched;
            var hold := Matches(s, id, MANUAL_REVIEW) && !s.manual;
            && !Comes(s, t, id, PRE_SEND_WAIT) && !Comes(s, t, id, SUBMITTING) && !Comes(s, t, id, SENT)
            && !Comes(s, t, id, MANUAL_REVIEW)
            && (Comes(s, t, id, FAILED_SAFE) <==> unsent || (hold && s.operation.value.submitStartedAt == 0))
            && (Comes(s, t, id, AMBIGUOUS) <==>
                  (Matches(s, id, SUBMITTING) && !unsent) || (hold && s.operation.value.submitStartedAt > 0))
  {
  }

  lemma CrashMoves(w: World, now: nat, resume: bool, lease: bool, id: Id)
    ensures PhasesAsSaid(w, Crash(now, resume, lease), id)
  {
    ColdMoves(w.session, now, resume, lease, id);
    hide ColdStart;
  }

  predicate Closing(step: Step) {
    step.AfterVerify? || step.AfterPrepare? || step.AfterSubmit? || step.AfterCheck? || step.AfterInsert? || step.Crash?
  }

  predicate Recovering(step: Step) { step.Settle? || step.Hold? || step.FailInserted? || step.FailExpired? }

  predicate Advancing(step: Step) { step.PassCheckpoint? || step.BeginOperation? || step.MarkReady? || step.StartInserting? }

  lemma RecoveringMoves(w: World, step: Step, id: Id)
    requires Can(w, step) && Recovering(step)
    ensures PhasesAsSaid(w, step, id)
  {
    hide Decide, ApplyAnswer, AfterInsertSession, FinishSubmit, ColdStart, ApplyVerification, HoldPrepared, Deadline;
    hide Begin, Checkpoint, GivesUp, Holds, Uncertains, Word;
  }

  lemma AdvancingMoves(w: World, step: Step, id: Id)
    requires Can(w, step) && Advancing(step)
    ensures PhasesAsSaid(w, step, id)
  {
    hide Decide, ApplyAnswer, AfterInsertSession, FinishSubmit, ColdStart, ApplyVerification, HoldPrepared, Deadline;
    hide SettleExpired, HoldManaged, FailInterrupted, FailStuck, GivesUp, Holds, Uncertains, Word;
  }

  lemma QuietMoves(w: World, step: Step, id: Id)
    requires Can(w, step) && !step.OtherWriter? && !Closing(step) && !Recovering(step) && !Advancing(step)
    ensures Do(w, step).session == w.session && PhasesAsSaid(w, step, id)
  {
    hide Decide, ApplyAnswer, AfterInsertSession, FinishSubmit, ColdStart, ApplyVerification, HoldPrepared, Deadline, Matches;
    hide SettleExpired, HoldManaged, FailInterrupted, FailStuck, Checkpoint, Begin;
  }

  /** Every way of every step into the phases before, in and after a send. */
  lemma PhasesExactly(w: World, step: Step, id: Id)
    requires Can(w, step) && !step.OtherWriter?
    ensures PhasesAsSaid(w, step, id)
  {
    hide PhasesAsSaid;
    match step
    case AfterVerify(now, limitRetryAt) => VerifyMoves(w, now, limitRetryAt, id);
    case AfterPrepare(now, limitRetryAt) => PrepareMoves(w, now, limitRetryAt, id);
    case AfterSubmit(now) => SubmitMoves(w, now, id);
    case AfterCheck(_, _, _) => CheckMoves(w, step, id);
    case AfterInsert(_, _, _) => InsertMoves(w, step, id);
    case Crash(now, resume, lease) => CrashMoves(w, now, resume, lease, id);
    case _ =>
      if Recovering(step) {
        RecoveringMoves(w, step, id);
      } else if Advancing(step) {
        AdvancingMoves(w, step, id);
      } else {
        QuietMoves(w, step, id);
      }
  }

  /** What is recorded on the way: the time of the send at the mark, the delay in front of it where it is armed. */
  lemma TimesExactly(w: World, step: Step, id: Id)
    requires Can(w, step)
    ensures SubmittedBy(w, step, id) ==>
              Do(w, step).flow == Sending(id) && Do(w, step).session.operation.value.submitStartedAt == step.now
    ensures ArmedBy(w, step, id) ==> Do(w, step).session.operation.Some?
    ensures ArmedBy(w, step, id) ==>
              Do(w, step).session.operation.value.preSendDeadline == step.now + w.session.preSendDelayMs
  {
    hide ApplyAnswer;
  }

  /** The way up to the insertion: begun, ready, inserting, each by its own step and by no other. */
  lemma EarlyPhases(w: World, step: Step, id: Id)
    requires Can(w, step) && !step.OtherWriter?
    ensures step.BeginOperation? && step.id == id ==> Matches(Do(w, step).session, id, CHECKING)
    ensures step.MarkReady? && w.flow.id == id ==> Matches(Do(w, step).session, id, READY_TO_INSERT)
    ensures step.StartInserting? && w.flow.id == id ==> Matches(Do(w, step).session, id, INSERTING)
    ensures Enters(w, step, id, CHECKING) ==> step.BeginOperation? && step.id == id
    ensures Enters(w, step, id, READY_TO_INSERT) ==> step.MarkReady? && w.flow.id == id
    ensures Enters(w, step, id, INSERTING) ==> step.StartInserting? && w.flow.id == id
  {
    if Closing(step) {
      ClosingSkipsEarly(w, step, id);
    } else {
      hide ApplyAnswer, AfterInsertSession, FinishSubmit, ColdStart, ApplyVerification, HoldPrepared, Deadline, Decide;
    }
  }

  lemma AnswerSkipsEarly(s: Session, status: Status, own: bool, now: nat, limitRetryAt: nat, id: Id)
    ensures var t := ApplyAnswer(s, status, own, now, limitRetryAt);
            !Comes(s, t, id, CHECKING) && !Comes(s, t, id, READY_TO_INSERT) && !Comes(s, t, id, INSERTING)
  {
  }

  lemma ClosingSkipsEarly(w: World, step: Step, id: Id)
    requires Can(w, step) && Closing(step)
    ensures !Enters(w, step, id, CHECKING) && !Enters(w, step, id, READY_TO_INSERT) && !Enters(w, step, id, INSERTING)
  {
    hide ApplyAnswer, FinishSubmit;
    var s := w.session;
    match step
    case AfterVerify(now, limitRetryAt) => AnswerSkipsEarly(s, EffectiveStatus(w.flow, now), true, now, limitRetryAt, id);
    case AfterPrepare(now, limitRetryAt) => AnswerSkipsEarly(s, w.flow.status, true, now, limitRetryAt, id);
    case AfterSubmit(now) => if s.operation.Some? { SubmitSkipsEarly(s, w.flow.result, now, id); }
    case AfterCheck(own, now, limitRetryAt) => AnswerSkipsEarly(s, w.flow.status, own, now, limitRetryAt, id);
    case AfterInsert(own, now, limitRetryAt) => AnswerSkipsEarly(s, w.flow.status, own, now, limitRetryAt, id);
    case _ =>
  }

  lemma SubmitSkipsEarly(s: Session, r: SubmitResult, now: nat, id: Id)
    requires s.operation.Some?
    ensures var t := FinishSubmit(s, r, now);
            !Comes(s, t, id, CHECKING) && !Comes(s, t, id, READY_TO_INSERT) && !Comes(s, t, id, INSERTING)
  {
  }

  /** A flow keeps what it read when it began: nothing a verification brings back changes its deadline or its kind. */
  lemma VerificationRemembers(w: World, status: Status)
    requires w.flow.Verifying?
    ensures var next := Do(w, AnswerVerify(status));
            && next.session == w.session && next.trace == w.trace + [VerifyAnswered(w.flow.id, status)]
            && next.flow.Verified? && next.flow.status == status && next.flow.id == w.flow.id
            && next.flow.deadline == w.flow.deadline && next.flow.manual == w.flow.manual && next.flow.managed == w.flow.managed
  {
  }

  /**
   * In front of a send: a ready page leads to the mark, provided the operation still waits in an active session; a page
   * with the text inserted makes it wait at least half a second more; any other answer ends the cycle.
   */
  lemma PreparedExactly(w: World, now: nat, limitRetryAt: nat)
    requires w.flow.Prepared?
    ensures var (s, id, next) := (w.session, w.flow.id, Do(w, AfterPrepare(now, limitRetryAt)));
            && (next.flow == Checkpointing(id) <==> w.flow.status.READY? && Works(s) && Matches(s, id, PRE_SEND_WAIT))
            && (next.flow != Checkpointing(id) ==> next.flow == Idle)
            && (w.flow.status.READY? || !Matches(s, id, PRE_SEND_WAIT) ==> next.session == s)
            && (w.flow.status.INSERTED_NOT_SENT? && Matches(s, id, PRE_SEND_WAIT) ==>
                  && Matches(next.session, id, PRE_SEND_WAIT)
                  && next.session.operation.value.preSendDeadline == now + Max(500, s.busyCheckDelayMs))
            && (w.flow.status.BUSY? && Matches(s, id, PRE_SEND_WAIT) ==>
                  next.session == s.(retryAfterAt := now + (if s.busyCheckDelayMs == 0 then 5000 else Max(1000, s.busyCheckDelayMs))))
  {
  }

  /** Whoever gives an operation up before its send makes the next attempt wait out the backoff, of at least a second. */
  lemma GivingUpWaits(w: World, step: Step, id: Id)
    requires Can(w, step) && GivenUpBy(w, step, id)
    requires step.FailInserted? || step.FailExpired? || step.AfterSubmit? || (step.AfterInsert? && w.flow.status.INSERTED_NOT_SENT?)
             || (step.Crash? && w.session.operation.value.phase.SUBMITTING?)
    ensures var backoff := if w.session.retryBackoffMs == 0 then 30000 else Max(1000, w.session.retryBackoffMs);
            && Do(w, step).session.retryAfterAt ==
                 (if step.AfterSubmit? then step.now + backoff else Max(w.session.retryAfterAt, step.now + backoff))
            && Do(w, step).session.operation.value.submitStartedAt == (if step.Crash? || step.AfterSubmit? then 0 else w.session.operation.value.submitStartedAt)
  {
  }

  // --------------------------------------------------- how a cycle begins

  /** Nothing at all begins in a session that is not active or while the profile is limited. */
  predicate MayStart(s: Session, rateLimited: bool) { Works(s) && !rateLimited }

  /**
   * What a cycle sets out to do: new work only when the last operation has ended, the steps of a waiting, uncertain or
   * inserted operation only when its times are over, and nothing while a send is under way or held for review.
   */
  lemma StartsExactly(s: Session, now: nat, rateLimited: bool, id: Id, phase: Phase)
    ensures Decide(s, now, rateLimited) == Checking <==>
              MayStart(s, rateLimited) && (s.operation.None? || s.operation.value.phase.SENT? || s.operation.value.phase.FAILED_SAFE?)
    ensures Decide(s, now, rateLimited) == Preparing(id) <==>
              && MayStart(s, rateLimited) && Matches(s, id, PRE_SEND_WAIT)
              && now >= s.operation.value.preSendDeadline && now >= s.retryAfterAt
    ensures Decide(s, now, rateLimited) == Interrupted(id) <==>
              MayStart(s, rateLimited) && Matches(s, id, INSERTED) && now >= s.retryAfterAt
    ensures Decide(s, now, rateLimited) == Stuck(id, phase) <==>
              && MayStart(s, rateLimited) && Matches(s, id, phase)
              && (phase.CHECKING? || phase.READY_TO_INSERT? || phase.INSERTING?)
    ensures Decide(s, now, rateLimited).Verifying? && Decide(s, now, rateLimited).id == id <==>
              && MayStart(s, rateLimited) && Matches(s, id, AMBIGUOUS) && now >= s.retryAfterAt
              && (now < Deadline(s, s.operation.value, now) || s.manual || s.managed)
    ensures Decide(s, now, rateLimited).Verifying? ==>
              Decide(s, now, rateLimited) == Verifying(s.operation.value.id, Deadline(s, s.operation.value, now), s.manual, s.managed)
    ensures Matches(s, id, SUBMITTING) || Matches(s, id, MANUAL_REVIEW) ==> Decide(s, now, rateLimited) == Idle
  {
  }

  /** The window for an uncertain send: counted from its own record, never from the clock, unless there is none. */
  lemma DeadlineMeans(s: Session, now: nat)
    requires s.operation.Some?
    ensures var op := s.operation.value; var deadline := Deadline(s, op, now);
            && (op.verificationDeadline > 0 ==> deadline == op.verificationDeadline)
            && (op.verificationDeadline == 0 && op.submitStartedAt > 0 && !s.manual ==>
                  var twice := 2 * (if s.retryBackoffMs == 0 then 30000 else Max(1000, s.retryBackoffMs));
                  deadline == op.submitStartedAt + (if twice < 15000 then 15000 else if twice > 45000 then 45000 else twice))
            && (op.verificationDeadline == 0 && op.submitStartedAt > 0 && s.manual ==> deadline == op.submitStartedAt + 120000)
            && (op.verificationDeadline == 0 && op.submitStartedAt == 0 && op.createdAt > 0 ==>
                  op.createdAt + 15000 <= deadline <= op.createdAt + 120000)
  {
  }
}
