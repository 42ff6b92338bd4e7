/**
 * Runs of the executor over one session: `runSessionOnce` and its continuations in src/core/automatic-executor.js,
 * with crashes, other writers between any two steps, any clock and any page answers. The service worker keeps one
 * execution cycle in flight (src/background/service-worker.js), so a session has at most one flow at a time.
 */
module SubmissionRuns {
  import opened Common
  import opened Submission

  /** Where the flow stands: what it awaits, and what it remembers from its own read of the session. */
  datatype Flow =
    | Idle
    | Settling(id: Id)
    | Verifying(id: Id, deadline: nat, manual: bool, managed: bool)
    | Verified(id: Id, deadline: nat, manual: bool, managed: bool, status: Status)
    | Holding(id: Id)
    | Preparing(id: Id)
    | Prepared(id: Id, status: Status)
    | Checkpointing(id: Id)
    | Sending(id: Id)
    | Waiting(id: Id)
    | Answered(id: Id, result: SubmitResult)
    | Interrupted(id: Id)
    | Stuck(id: Id, phase: Phase)
    | Checking
    | Checked(status: Status)
    | Begun(id: Id)
    | Marked(id: Id)
    | Inserting(id: Id)
    | Inserted(id: Id, proven: bool, status: Status)

  /** The two messages that decide about a second send. */
  datatype Event = SubmitRequested(id: Id) | VerifyAnswered(id: Id, status: Status)

  datatype World = World(session: Session, flow: Flow, begun: set<Id>, trace: seq<Event>)

  datatype Step =
    | Start(now: nat, rateLimited: bool)
    | Settle(now: nat)
    | AnswerVerify(status: Status)
    | AfterVerify(now: nat, limitRetryAt: nat)
    | Hold(now: nat)
    | AnswerPrepare(status: Status)
    | AfterPrepare(now: nat, limitRetryAt: nat)
    | PassCheckpoint(now: nat)
    | RequestSubmit
    | AnswerSubmit(result: SubmitResult)
    | AfterSubmit(now: nat)
    | FailInserted(now: nat)
    | FailExpired(now: nat)
    | AnswerCheck(status: Status)
    | AfterCheck(own: bool, now: nat, limitRetryAt: nat)
    | BeginOperation(id: Id, now: nat)
    | MarkReady
    | StartInserting
    | AnswerInsert(proven: bool, status: Status)
    | AfterInsert(own: bool, now: nat, limitRetryAt: nat)
    | Throw
    | Crash(now: nat, resume: bool, lease: bool)
    | OtherWriter(session: Session)

  // ---------------------------------------------------------------- steps

  /**
   * What `runSessionOnce` does with the session it has just read, and with an operation stuck before its insertion the
   * cycle of src/core/runtime-execution.js around it.
   */
  function Decide(s: Session, now: nat, rateLimited: bool): Flow {
    if !Active(s) || rateLimited then Idle
    else if s.operation.None? || Terminal(s.operation.value.phase) then Checking
    else
      var op := s.operation.value;
      match op.phase
      case AMBIGUOUS =>
        var deadline := Deadline(s, op, now);
        if now >= deadline && !s.manual && !s.managed then Settling(op.id)
        else if s.retryAfterAt > now then Idle
        else Verifying(op.id, deadline, s.manual, s.managed)
      case PRE_SEND_WAIT =>
        if Max(op.preSendDeadline, s.retryAfterAt) > now then Idle else Preparing(op.id)
      case SUBMITTING => Idle
      case MANUAL_REVIEW => Idle
      case INSERTED => if s.retryAfterAt > now then Idle else Interrupted(op.id)
      case _ => Stuck(op.id, op.phase)
  }

  /** The answer to a verification after its deadline is turned into another one, or ends the operation. */
  function AfterVerifyFlow(f: Flow, now: nat): Flow
    requires f.Verified?
  {
    if now >= f.deadline && !f.status.SENT_VERIFIED? && !f.manual then
      (if f.managed then Holding(f.id) else Settling(f.id))
    else Idle
  }

  function EffectiveStatus(f: Flow, now: nat): Status
    requires f.Verified?
  {
    if now >= f.deadline && !f.status.SENT_VERIFIED? then MANUAL_REVIEW_REQUIRED else f.status
  }

  function AfterPrepareFlow(s: Session, id: Id, status: Status): Flow {
    if Active(s) && Matches(s, id, PRE_SEND_WAIT) && status.READY? then Checkpointing(id) else Idle
  }

  /** An insertion without proof is given up; with proof the operation waits before it is sent. */
  function AfterInsertSession(s: Session, f: Flow, own: bool, now: nat, limitRetryAt: nat): Session
    requires f.Inserted?
  {
    if f.proven then
      if Matches(s, f.id, INSERTING) || Matches(s, f.id, INSERTED) then MarkInserted(s, now) else s
    else if f.status.INSERTED_NOT_SENT? then
      if s.operation.Some? && s.operation.value.id == f.id
      then WithPhase(s.(retryAfterAt := Max(s.retryAfterAt, now + Backoff(s))), FAILED_SAFE)
      else s
    else ApplyAnswer(s, f.status, own, now, limitRetryAt)
  }

  /** Other code may pause, reconfigure, settle or drop the operation, never bring it back to an earlier phase. */
  predicate OthersMay(s: Session, t: Session) {
    t.operation.Some? ==>
      && s.operation.Some? && t.operation.value.id == s.operation.value.id
      && (t.operation.value.phase == s.operation.value.phase
          || t.operation.value.phase.AMBIGUOUS? || t.operation.value.phase.FAILED_SAFE?
          || t.operation.value.phase.MANUAL_REVIEW? || t.operation.value.phase.SENT?)
  }

  /** Whether the step is possible. `Throw` stands for every early end: an error, or a session found quiesced. */
  predicate Can(w: World, step: Step) {
    match step
    case Start(_, _) => w.flow.Idle?
    case Settle(_) => w.flow.Settling?
    case AnswerVerify(_) => w.flow.Verifying?
    case AfterVerify(_, _) => w.flow.Verified?
    case Hold(_) => w.flow.Holding?
    case AnswerPrepare(_) => w.flow.Preparing?
    case AfterPrepare(_, _) => w.flow.Prepared?
    case PassCheckpoint(_) => w.flow.Checkpointing?
    case RequestSubmit => w.flow.Sending?
    case AnswerSubmit(_) => w.flow.Sending? || w.flow.Waiting?
    case AfterSubmit(_) => w.flow.Answered?
    case FailInserted(_) => w.flow.Interrupted?
    case FailExpired(_) => w.flow.Stuck?
    case AnswerCheck(_) => w.flow.Checking?
    case AfterCheck(_, _, _) => w.flow.Checked? && !w.flow.status.READY?
    case BeginOperation(id, _) => w.flow.Checked? && w.flow.status.READY? && MayBegin(w.session) && id !in w.begun
    case MarkReady => w.flow.Begun? && Matches(w.session, w.flow.id, CHECKING)
    case StartInserting => w.flow.Marked? && Matches(w.session, w.flow.id, READY_TO_INSERT)
    case AnswerInsert(_, _) => w.flow.Inserting?
    case AfterInsert(_, _, _) => w.flow.Inserted?
    case Throw => true
    case Crash(_, _, _) => true
    case OtherWriter(session) => OthersMay(w.session, session)
  }

  function Do(w: World, step: Step): World
    requires Can(w, step)
  {
    var s := w.session;
    match step
    case Start(now, rateLimited) => w.(flow := Decide(s, now, rateLimited))
    case Settle(now) => w.(session := SettleExpired(s, w.flow.id, now), flow := Idle)
    case AnswerVerify(status) =>
      w.(flow := Verified(w.flow.id, w.flow.deadline, w.flow.manual, w.flow.managed, status),
         trace := w.trace + [VerifyAnswered(w.flow.id, status)])
    case AfterVerify(now, limitRetryAt) =>
      var next := AfterVerifyFlow(w.flow, now);
      if next != Idle then w.(flow := next)
      else w.(session := ApplyVerification(s, w.flow.id, EffectiveStatus(w.flow, now), now, limitRetryAt), flow := Idle)
    case Hold(now) => w.(session := HoldManaged(s, w.flow.id, now), flow := Idle)
    case AnswerPrepare(status) => w.(flow := Prepared(w.flow.id, status))
    case AfterPrepare(now, limitRetryAt) =>
      w.(flow := AfterPrepareFlow(s, w.flow.id, w.flow.status),
         session := if w.flow.status.READY? then s else HoldPrepared(s, w.flow.id, w.flow.status, now, limitRetryAt))
    case PassCheckpoint(now) =>
      if MayCheckpoint(s, w.flow.id, now) then w.(session := Checkpoint(s, now), flow := Sending(w.flow.id))
      else w.(flow := Idle)
    case RequestSubmit => w.(flow := Waiting(w.flow.id), trace := w.trace + [SubmitRequested(w.flow.id)])
    case AnswerSubmit(result) => w.(flow := Answered(w.flow.id, result))
    case AfterSubmit(now) =>
      if s.operation.Some? && s.operation.value.id == w.flow.id
      then w.(session := FinishSubmit(s, w.flow.result, now), flow := Idle)
      else w.(flow := Idle)
    case FailInserted(now) => w.(session := FailInterrupted(s, w.flow.id, now), flow := Idle)
    case FailExpired(now) => w.(session := FailStuck(s, w.flow.id, w.flow.phase, now), flow := Idle)
    case AnswerCheck(status) => w.(flow := Checked(status))
    case AfterCheck(own, now, limitRetryAt) =>
      w.(session := ApplyAnswer(s, w.flow.status, own, now, limitRetryAt), flow := Idle)
    case BeginOperation(id, now) => World(Begin(s, id, now), Begun(id), w.begun + {id}, w.trace)
    case MarkReady => w.(session := WithPhase(s, READY_TO_INSERT), flow := Marked(w.flow.id))
    case StartInserting => w.(session := WithPhase(s, INSERTING), flow := Inserting(w.flow.id))
    case AnswerInsert(proven, status) => w.(flow := Inserted(w.flow.id, proven, status))
    case AfterInsert(own, now, limitRetryAt) =>
      w.(session := AfterInsertSession(s, w.flow, own, now, limitRetryAt), flow := Idle)
    case Throw => w.(flow := Idle)
    case Crash(now, resume, lease) => w.(session := ColdStart(s, now, resume, lease), flow := Idle)
    case OtherWriter(session) => w.(session := session)
  }

  /** A run from a session that may still carry an operation of an earlier life. */
  ghost predicate Run(worlds: seq<World>, steps: seq<Step>) {
    && |worlds| == |steps| + 1
    && worlds[0].flow == Idle && worlds[0].trace == []
    && (worlds[0].session.operation.Some? ==> worlds[0].session.operation.value.id in worlds[0].begun)
    && forall k | 0 <= k < |steps| :: Can(worlds[k], steps[k]) && worlds[k + 1] == Do(worlds[k], steps[k])
  }

  // ---------------------------------------------------------- no second send

  /** Every send of this operation so far is followed by an answer that it was not sent. */
  ghost predicate Open(trace: seq<Event>, id: Id) {
    forall i | 0 <= i < |trace| && trace[i] == SubmitRequested(id) ::
      exists k :: i < k < |trace| && trace[k] == VerifyAnswered(id, INSERTED_NOT_SENT)
  }

  /** Two sends of one operation have such an answer for that operation between them. */
  ghost predicate Separated(trace: seq<Event>) {
    forall i, j | 0 <= i < j < |trace| && trace[i].SubmitRequested? && trace[j] == trace[i] ::
      exists k :: i < k < j && trace[k] == VerifyAnswered(trace[i].id, INSERTED_NOT_SENT)
  }

  /** The flow is past the durable mark: the operation can no longer be waiting to be sent. */
  predicate PastCheckpoint(f: Flow) { f.Sending? || f.Waiting? || f.Answered? }

  /** The flow may still put this operation in front of a send, or send it. */
  predicate FlowMaySend(f: Flow, id: Id) {
    || ((f.Begun? || f.Marked? || f.Inserting? || f.Inserted? || f.Sending?) && f.id == id)
    || (f.Verified? && f.id == id && f.status.INSERTED_NOT_SENT?)
  }

  predicate MaySend(w: World, id: Id) { Matches(w.session, id, PRE_SEND_WAIT) || FlowMaySend(w.flow, id) }

  predicate FlowId(f: Flow, id: Id) { !f.Idle? && !f.Checking? && !f.Checked? && f.id == id }

  ghost predicate Known(w: World) {
    && (w.session.operation.Some? ==> w.session.operation.value.id in w.begun)
    && (forall i | 0 <= i < |w.trace| :: w.trace[i].id in w.begun)
    && (forall id | FlowId(w.flow, id) :: id in w.begun)
  }

  ghost predicate Inv(w: World) {
    && Known(w) && Separated(w.trace)
    && (PastCheckpoint(w.flow) ==> !Matches(w.session, w.flow.id, PRE_SEND_WAIT))
    && forall id | MaySend(w, id) :: Open(w.trace, id)
  }

  lemma OpenThenAnswer(trace: seq<Event>, e: Event, id: Id)
    requires Open(trace, id) && e.VerifyAnswered?
    ensures Open(trace + [e], id)
  {
    forall i | 0 <= i < |trace + [e]| && (trace + [e])[i] == SubmitRequested(id)
      ensures exists k :: i < k < |trace + [e]| && (trace + [e])[k] == VerifyAnswered(id, INSERTED_NOT_SENT)
    {
      var k :| i < k < |trace| && trace[k] == VerifyAnswered(id, INSERTED_NOT_SENT);
      assert (trace + [e])[k] == trace[k];
    }
  }

  lemma OpenThenOther(trace: seq<Event>, e: Event, id: Id)
    requires Open(trace, id) && e != SubmitRequested(id)
    ensures Open(trace + [e], id)
  {
    forall i | 0 <= i < |trace + [e]| && (trace + [e])[i] == SubmitRequested(id)
      ensures exists k :: i < k < |trace + [e]| && (trace + [e])[k] == VerifyAnswered(id, INSERTED_NOT_SENT)
    {
      var k :| i < k < |trace| && trace[k] == VerifyAnswered(id, INSERTED_NOT_SENT);
      assert (trace + [e])[k] == trace[k];
    }
  }

  /** The answer that nothing was sent opens the operation, whatever happened before. */
  lemma AnswerOpens(trace: seq<Event>, id: Id)
    ensures Open(trace + [VerifyAnswered(id, INSERTED_NOT_SENT)], id)
  {
    var t := trace + [VerifyAnswered(id, INSERTED_NOT_SENT)];
    assert t[|trace|] == VerifyAnswered(id, INSERTED_NOT_SENT);
  }

  lemma SendStaysSeparated(trace: seq<Event>, id: Id)
    requires Separated(trace) && Open(trace, id)
    ensures Separated(trace + [SubmitRequested(id)])
  {
    var t := trace + [SubmitRequested(id)];
    forall i, j | 0 <= i < j < |t| && t[i].SubmitRequested? && t[j] == t[i]
      ensures exists k :: i < k < j && t[k] == VerifyAnswered(t[i].id, INSERTED_NOT_SENT)
    {
      assert trace[i] == t[i];
      if j < |trace| {
        assert trace[j] == t[j];
        var k :| i < k < j && trace[k] == VerifyAnswered(trace[i].id, INSERTED_NOT_SENT);
        assert t[k] == trace[k];
      } else {
        var k :| i < k < |trace| && trace[k] == VerifyAnswered(id, INSERTED_NOT_SENT);
        assert t[k] == trace[k];
      }
    }
  }

  lemma AnswerStaysSeparated(trace: seq<Event>, e: Event)
    requires Separated(trace) && e.VerifyAnswered?
    ensures Separated(trace + [e])
  {
    var t := trace + [e];
    forall i, j | 0 <= i < j < |t| && t[i].SubmitRequested? && t[j] == t[i]
      ensures exists k :: i < k < j && t[k] == VerifyAnswered(t[i].id, INSERTED_NOT_SENT)
    {
      assert trace[i] == t[i] && trace[j] == t[j];
      var k :| i < k < j && trace[k] == VerifyAnswered(trace[i].id, INSERTED_NOT_SENT);
      assert t[k] == trace[k];
    }
  }

  /** No answer puts an operation in front of a send; only the recovery of an unsent one does. */
  lemma AnswersNeverRearm(s: Session, status: Status, own: bool, now: nat, limitRetryAt: nat, id: Id)
    ensures var t := ApplyAnswer(s, status, own, now, limitRetryAt);
            && (Matches(t, id, PRE_SEND_WAIT) ==> Matches(s, id, PRE_SEND_WAIT))
            && (t.operation.Some? <==> s.operation.Some?)
            && (t.operation.Some? ==> t.operation.value.id == s.operation.value.id)
  {
  }

  /** Trace and known ids unchanged: nobody gains the right to send. */
  lemma NoNewRight(w: World, t: Session, f: Flow)
    requires Inv(w)
    requires t.operation.Some? ==> t.operation.value.id in w.begun
    requires forall id | FlowId(f, id) :: id in w.begun
    requires forall id | Matches(t, id, PRE_SEND_WAIT) || FlowMaySend(f, id) :: MaySend(w, id)
    requires PastCheckpoint(f) ==> !Matches(t, f.id, PRE_SEND_WAIT)
    ensures Inv(w.(session := t, flow := f))
  {
  }

  /** The session keeps its operation, or loses it, and it does not start waiting for a send. */
  ghost predicate Calms(s: Session, t: Session) {
    && (t.operation.Some? ==> s.operation.Some? && t.operation.value.id == s.operation.value.id)
    && (forall id | Matches(t, id, PRE_SEND_WAIT) :: Matches(s, id, PRE_SEND_WAIT))
  }

  lemma CalmStep(w: World, t: Session, f: Flow)
    requires Inv(w) && Calms(w.session, t)
    requires forall id | FlowId(f, id) :: id in w.begun
    requires forall id | FlowMaySend(f, id) :: MaySend(w, id)
    requires PastCheckpoint(f) ==> !Matches(t, f.id, PRE_SEND_WAIT)
    ensures Inv(w.(session := t, flow := f))
  {
    NoNewRight(w, t, f);
  }

  lemma AnswersCalm(s: Session, status: Status, own: bool, now: nat, limitRetryAt: nat)
    ensures Calms(s, ApplyAnswer(s, status, own, now, limitRetryAt))
  {
    forall id | Matches(ApplyAnswer(s, status, own, now, limitRetryAt), id, PRE_SEND_WAIT) ensures Matches(s, id, PRE_SEND_WAIT) {
      AnswersNeverRearm(s, status, own, now, limitRetryAt, id);
    }
    AnswersNeverRearm(s, status, own, now, limitRetryAt, []);
  }

  lemma VerificationCalms(s: Session, id: Id, status: Status, now: nat, limitRetryAt: nat)
    requires !status.INSERTED_NOT_SENT?
    ensures Calms(s, ApplyVerification(s, id, status, now, limitRetryAt))
  {
    AnswersCalm(s, status, true, now, limitRetryAt);
  }

  /** An unsent answer gives the operation back its one send. */
  lemma RearmStep(w: World, now: nat, limitRetryAt: nat)
    requires Inv(w) && w.flow.Verified? && w.flow.status.INSERTED_NOT_SENT?
    ensures Inv(w.(session := ApplyVerification(w.session, w.flow.id, INSERTED_NOT_SENT, now, limitRetryAt), flow := Idle))
  {
    var t := ApplyVerification(w.session, w.flow.id, INSERTED_NOT_SENT, now, limitRetryAt);
    assert FlowId(w.flow, w.flow.id);
    assert forall id | Matches(t, id, PRE_SEND_WAIT) :: MaySend(w, id);
    NoNewRight(w, t, Idle);
  }

  lemma AfterVerifyStep(w: World, now: nat, limitRetryAt: nat)
    requires Inv(w) && w.flow.Verified?
    ensures Inv(Do(w, AfterVerify(now, limitRetryAt)))
  {
    var next := AfterVerifyFlow(w.flow, now);
    assert FlowId(w.flow, w.flow.id);
    hide Inv, ApplyVerification;
    if next != Idle {
      CalmStep(w, w.session, next);
    } else if EffectiveStatus(w.flow, now).INSERTED_NOT_SENT? {
      RearmStep(w, now, limitRetryAt);
    } else {
      VerificationCalms(w.session, w.flow.id, EffectiveStatus(w.flow, now), now, limitRetryAt);
      CalmStep(w, ApplyVerification(w.session, w.flow.id, EffectiveStatus(w.flow, now), now, limitRetryAt), Idle);
    }
  }

  lemma AnswerVerifyStep(w: World, status: Status)
    requires Inv(w) && w.flow.Verifying?
    ensures Inv(Do(w, AnswerVerify(status)))
  {
    var e := VerifyAnswered(w.flow.id, status);
    var w' := Do(w, AnswerVerify(status));
    assert FlowId(w.flow, w.flow.id);
    AnswerStaysSeparated(w.trace, e);
    forall id | MaySend(w', id) ensures Open(w'.trace, id) {
      if FlowMaySend(w'.flow, id) {
        AnswerOpens(w.trace, id);
      } else {
        OpenThenAnswer(w.trace, e, id);
      }
    }
  }

  lemma RequestSubmitStep(w: World)
    requires Inv(w) && w.flow.Sending?
    ensures Inv(Do(w, RequestSubmit))
  {
    var id := w.flow.id;
    var e := SubmitRequested(id);
    assert FlowId(w.flow, id) && MaySend(w, id);
    SendStaysSeparated(w.trace, id);
    var w' := Do(w, RequestSubmit);
    forall other | MaySend(w', other) ensures Open(w'.trace, other) {
      assert other != id;
      OpenThenOther(w.trace, e, other);
    }
  }

  lemma CheckpointStep(w: World, now: nat)
    requires Inv(w) && w.flow.Checkpointing?
    ensures Inv(Do(w, PassCheckpoint(now)))
  {
    assert FlowId(w.flow, w.flow.id);
    if MayCheckpoint(w.session, w.flow.id, now) {
      assert MaySend(w, w.flow.id);
      NoNewRight(w, Checkpoint(w.session, now), Sending(w.flow.id));
    } else {
      NoNewRight(w, w.session, Idle);
    }
  }

  lemma BeginStep(w: World, id: Id, now: nat)
    requires Inv(w) && Can(w, BeginOperation(id, now))
    ensures Inv(Do(w, BeginOperation(id, now)))
  {
    var w' := Do(w, BeginOperation(id, now));
    forall other | MaySend(w', other) ensures Open(w'.trace, other) { assert other == id; }
  }

  lemma InsertRearms(s: Session, f: Flow, own: bool, now: nat, limitRetryAt: nat, id: Id)
    requires f.Inserted?
    ensures var t := AfterInsertSession(s, f, own, now, limitRetryAt);
            && (t.operation.Some? ==> s.operation.Some? && t.operation.value.id == s.operation.value.id)
            && (Matches(t, id, PRE_SEND_WAIT) ==> id == f.id || Matches(s, id, PRE_SEND_WAIT))
  {
    AnswersNeverRearm(s, f.status, own, now, limitRetryAt, id);
    hide ApplyAnswer;
  }

  lemma InsertStep(w: World, own: bool, now: nat, limitRetryAt: nat)
    requires Inv(w) && w.flow.Inserted?
    ensures Inv(Do(w, AfterInsert(own, now, limitRetryAt)))
  {
    var t := AfterInsertSession(w.session, w.flow, own, now, limitRetryAt);
    assert FlowId(w.flow, w.flow.id) && MaySend(w, w.flow.id);
    InsertRearms(w.session, w.flow, own, now, limitRetryAt, []);
    forall id | Matches(t, id, PRE_SEND_WAIT) ensures MaySend(w, id) {
      InsertRearms(w.session, w.flow, own, now, limitRetryAt, id);
    }
    hide AfterInsertSession, Open, Separated;
    NoNewRight(w, t, Idle);
  }

  lemma PreparedCalms(s: Session, id: Id, status: Status, now: nat, limitRetryAt: nat)
    ensures Calms(s, HoldPrepared(s, id, status, now, limitRetryAt))
  {
    AnswersCalm(s, status, true, now, limitRetryAt);
  }

  lemma FinishCalms(s: Session, r: SubmitResult, now: nat)
    requires s.operation.Some?
    ensures Calms(s, FinishSubmit(s, r, now))
  {
    AnswersCalm(s, SENT_VERIFIED, true, now, 0);
    AnswersCalm(s, SUBMISSION_UNCERTAIN, true, now, 0);
  }

  lemma ColdStartCalms(s: Session, now: nat, resume: bool, lease: bool)
    ensures Calms(s, ColdStart(s, now, resume, lease))
  {
  }

  /** Reading the session gives the flow no right it does not find there. */
  lemma StartStep(w: World, now: nat, rateLimited: bool)
    requires Inv(w)
    ensures Inv(w.(flow := Decide(w.session, now, rateLimited)))
  {
    var f := Decide(w.session, now, rateLimited);
    assert forall id :: FlowId(f, id) ==> id in w.begun;
    NoNewRight(w, w.session, f);
  }

  /** The steps in which the page or the flow itself moves on without touching the trace. */
  lemma QuietStep(w: World, step: Step)
    requires Inv(w) && Can(w, step)
    requires step.AnswerPrepare? || step.AnswerSubmit? || step.AnswerCheck? || step.AnswerInsert? || step.Throw?
             || step.MarkReady? || step.StartInserting? || step.OtherWriter?
    ensures Inv(Do(w, step))
  {
    assert forall id | FlowId(w.flow, id) :: id in w.begun;
    var w' := Do(w, step);
    assert forall id | FlowId(w'.flow, id) :: FlowId(w.flow, id);
    NoNewRight(w, w'.session, w'.flow);
  }

  lemma ClosingStep(w: World, step: Step)
    requires Inv(w) && Can(w, step)
    requires step.Settle? || step.Hold? || step.AfterPrepare? || step.AfterSubmit? || step.FailInserted? || step.FailExpired?
             || step.AfterCheck? || step.Crash?
    ensures Inv(Do(w, step))
  {
    var s := w.session;
    var w' := Do(w, step);
    assert forall id | FlowId(w'.flow, id) :: FlowId(w.flow, id);
    hide ApplyAnswer, ColdStart, FinishSubmit, HoldPrepared;
    match step
    case Settle(now) => CalmStep(w, w'.session, Idle);
    case Hold(now) => CalmStep(w, w'.session, Idle);
    case AfterPrepare(now, limitRetryAt) =>
      PreparedCalms(s, w.flow.id, w.flow.status, now, limitRetryAt);
      CalmStep(w, w'.session, w'.flow);
    case AfterSubmit(now) =>
      if s.operation.Some? { FinishCalms(s, w.flow.result, now); }
      CalmStep(w, w'.session, Idle);
    case FailInserted(now) => CalmStep(w, w'.session, Idle);
    case FailExpired(now) => CalmStep(w, w'.session, Idle);
    case AfterCheck(own, now, limitRetryAt) =>
      AnswersCalm(s, w.flow.status, own, now, limitRetryAt);
      CalmStep(w, w'.session, Idle);
    case Crash(now, resume, lease) =>
      ColdStartCalms(s, now, resume, lease);
      CalmStep(w, w'.session, Idle);
  }

  lemma StepKeepsInv(w: World, step: Step)
    requires Inv(w) && Can(w, step)
    ensures Inv(Do(w, step))
  {
    hide Inv;
    match step
    case Start(now, rateLimited) => StartStep(w, now, rateLimited);
    case AnswerVerify(status) => AnswerVerifyStep(w, status);
    case AfterVerify(now, limitRetryAt) => AfterVerifyStep(w, now, limitRetryAt);
    case PassCheckpoint(now) => CheckpointStep(w, now);
    case RequestSubmit => RequestSubmitStep(w);
    case BeginOperation(id, now) => BeginStep(w, id, now);
    case AfterInsert(own, now, limitRetryAt) => InsertStep(w, own, now, limitRetryAt);
    case AnswerPrepare(_) => QuietStep(w, step);
    case AnswerSubmit(_) => QuietStep(w, step);
    case AnswerCheck(_) => QuietStep(w, step);
    case AnswerInsert(_, _) => QuietStep(w, step);
    case MarkReady => QuietStep(w, step);
    case StartInserting => QuietStep(w, step);
    case Throw => QuietStep(w, step);
    case OtherWriter(_) => QuietStep(w, step);
    case _ => ClosingStep(w, step);
  }

  lemma {:induction false} RunsKeepInv(worlds: seq<World>, steps: seq<Step>, k: nat)
    requires Run(worlds, steps) && k < |worlds|
    ensures Inv(worlds[k])
  {
    if k == 0 {
      assert Inv(worlds[0]);
    } else {
      RunsKeepInv(worlds, steps, k - 1);
      StepKeepsInv(worlds[k - 1], steps[k - 1]);
    }
  }

  /**
   * At most one send per proof that nothing was sent: in every run two requests to send for one operation are
   * separated by the page's answer, for that same operation, that its text is inserted and not sent.
   */
  lemma NeverSentTwiceBlindly(worlds: seq<World>, steps: seq<Step>, k: nat)
    requires Run(worlds, steps) && k < |worlds|
    ensures Separated(worlds[k].trace)
  {
    RunsKeepInv(worlds, steps, k);
  }

  // ---------------------------------------------- uncertain sends come to an end

  /** An unattended session that nobody coordinates, with this operation's send uncertain. */
  predicate Uncertain(s: Session, id: Id) { Matches(s, id, AMBIGUOUS) && !s.manual && !s.managed }

  lemma {:induction false} SettlingWaits(worlds: seq<World>, steps: seq<Step>, k: nat, j: nat)
    requires Run(worlds, steps) && k <= j < |worlds|
    requires forall i | k <= i < j :: steps[i].OtherWriter?
    ensures worlds[j].flow == worlds[k].flow && worlds[j].trace == worlds[k].trace
    decreases j
  {
    if k < j { SettlingWaits(worlds, steps, k, j - 1); }
  }

  /** A step sets out to settle a send exactly when it finds it past its deadline and nothing stops it before it looks. */
  lemma SettlesExactly(s: Session, now: nat, rateLimited: bool, id: Id)
    ensures Decide(s, now, rateLimited) == Settling(id) <==>
              Active(s) && !rateLimited && Uncertain(s, id) && now >= Deadline(s, s.operation.value, now)
  {
  }

  /**
   * A step at or after the deadline of an uncertain send sets out to settle it exactly when the session is active and
   * the profile is not limited. Then, with no answer from any page, the flow's next update leaves it failed safe for
   * good, unless another writer moves the operation first.
   */
  lemma ExpiredIsSettled(worlds: seq<World>, steps: seq<Step>, k: nat, j: nat, id: Id)
    requires Run(worlds, steps) && k < j < |steps| && steps[k].Start? && Uncertain(worlds[k].session, id)
    requires steps[k].now >= Deadline(worlds[k].session, worlds[k].session.operation.value, steps[k].now)
    requires (forall i | k < i < j :: steps[i].OtherWriter?) && !steps[j].OtherWriter?
    ensures worlds[k + 1].flow == Settling(id) <==> Active(worlds[k].session) && !steps[k].rateLimited
    ensures Active(worlds[k].session) && !steps[k].rateLimited ==>
              && (steps[j].Settle? || steps[j].Throw? || steps[j].Crash?)
              && (steps[j].Settle? && Matches(worlds[j].session, id, AMBIGUOUS) ==> Matches(worlds[j + 1].session, id, FAILED_SAFE))
              && worlds[j + 1].trace == worlds[k].trace
  {
    SettlesExactly(worlds[k].session, steps[k].now, steps[k].rateLimited, id);
    SettlingWaits(worlds, steps, k + 1, j);
  }

  predicate RemembersManaged(f: Flow) {
    ((f.Verifying? || f.Verified?) && f.managed) || f.Holding?
  }

  lemma AnswersKeepDeadline(s: Session, status: Status, own: bool, now: nat, limitRetryAt: nat)
    requires s.operation.Some? && s.operation.value.verificationDeadline > 0
    ensures var t := ApplyAnswer(s, status, own, now, limitRetryAt);
            && t.operation.Some? && t.operation.value.verificationDeadline == s.operation.value.verificationDeadline
            && t.manual == s.manual && t.managed == s.managed
  {
  }

  lemma FinishKeepsDeadline(s: Session, r: SubmitResult, now: nat)
    requires s.operation.Some? && s.operation.value.verificationDeadline > 0
    ensures var t := FinishSubmit(s, r, now);
            && t.operation.Some? && t.operation.value.verificationDeadline == s.operation.value.verificationDeadline
            && t.manual == s.manual && t.managed == s.managed
  {
    AnswersKeepDeadline(s, SENT_VERIFIED, true, now, 0);
    AnswersKeepDeadline(s, SUBMISSION_UNCERTAIN, true, now, 0);
  }

  /** Only a managed session's hold, or another writer, moves a deadline once it is set. */
  lemma DeadlineStays(w: World, step: Step, id: Id)
    requires Can(w, step) && !step.OtherWriter? && !RemembersManaged(w.flow)
    requires Uncertain(w.session, id) && w.session.operation.value.verificationDeadline > 0
    ensures !RemembersManaged(Do(w, step).flow)
    ensures Matches(Do(w, step).session, id, AMBIGUOUS) ==>
              && Uncertain(Do(w, step).session, id)
              && Do(w, step).session.operation.value.verificationDeadline == w.session.operation.value.verificationDeadline
  {
    hide ApplyAnswer, FinishSubmit;
    var s := w.session;
    match step
    case AfterVerify(now, limitRetryAt) =>
      AnswersKeepDeadline(s, EffectiveStatus(w.flow, now), true, now, limitRetryAt);
    case AfterSubmit(now) => FinishKeepsDeadline(s, w.flow.result, now);
    case AfterCheck(own, now, limitRetryAt) => AnswersKeepDeadline(s, w.flow.status, own, now, limitRetryAt);
    case AfterInsert(own, now, limitRetryAt) => AnswersKeepDeadline(s, w.flow.status, own, now, limitRetryAt);
    case _ =>
  }

  /** However often it is verified, an uncertain send keeps the deadline it was given. */
  lemma {:induction false} DeadlineStands(worlds: seq<World>, steps: seq<Step>, k: nat, j: nat, id: Id)
    requires Run(worlds, steps) && k <= j < |worlds| && !RemembersManaged(worlds[k].flow)
    requires Uncertain(worlds[k].session, id) && worlds[k].session.operation.value.verificationDeadline > 0
    requires forall i | k <= i < j :: !steps[i].OtherWriter? && Matches(worlds[i + 1].session, id, AMBIGUOUS)
    ensures Uncertain(worlds[j].session, id) && !RemembersManaged(worlds[j].flow)
    ensures worlds[j].session.operation.value.verificationDeadline == worlds[k].session.operation.value.verificationDeadline
    decreases j
  {
    hide Do, Can, RemembersManaged;
    if k < j {
      DeadlineStands(worlds, steps, k, j - 1, id);
      DeadlineStays(worlds[j - 1], steps[j - 1], id);
    }
  }

  /** And that deadline is at most 45 seconds after the send came back uncertain. */
  lemma UncertainHasADeadline(s: Session, r: SubmitResult, now: nat)
    requires s.operation.Some? && !s.manual && s.operation.value.verificationDeadline == 0
    ensures var t := FinishSubmit(s, r, now);
            Matches(t, s.operation.value.id, AMBIGUOUS) ==>
              now + 15000 <= t.operation.value.verificationDeadline <= now + 45000
  {
  }
}
