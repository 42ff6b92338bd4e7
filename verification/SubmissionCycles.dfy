/** The order of the steps inside one cycle of the executor, and what may happen at all. */
module SubmissionCycles {
  import opened Common
  import opened Submission
  import opened SubmissionRuns

  /** The executor's own steps since the cycle began: what other writers do in between is left out. */
  function Cycle(steps: seq<Step>): seq<Step>
    decreases |steps|
  {
    if steps == [] then []
    else
      var last := steps[|steps| - 1];
      var before := Cycle(steps[..|steps| - 1]);
      if last.OtherWriter? then before else if last.Start? then [last] else before + [last]
  }

  predicate Begins(c: seq<Step>) { c != [] && c[0].Start? }

  predicate Verifies(c: seq<Step>, status: Status) { |c| >= 2 && Begins(c) && c[1] == AnswerVerify(status) }

  /** The page was ready, and the durable mark was passed. */
  predicate Marks(c: seq<Step>) {
    |c| >= 4 && Begins(c) && c[1] == AnswerPrepare(READY) && c[2].AfterPrepare? && c[3].PassCheckpoint?
  }

  /** The page was ready, and this operation was begun. */
  predicate BeginsOperation(c: seq<Step>, id: Id) {
    |c| >= 3 && Begins(c) && c[1] == AnswerCheck(READY) && c[2].BeginOperation? && c[2].id == id
  }

  /** What the cycle has done when the flow stands here. */
  ghost predicate Stands(c: seq<Step>, f: Flow) {
    match f
    case Idle => true
    case Settling(_) => Begins(c) && (|c| == 1 || (|c| == 3 && c[1].AnswerVerify? && c[2].AfterVerify?))
    case Verifying(_, _, _, _) => Begins(c) && |c| == 1
    case Verified(_, _, _, _, status) => Verifies(c, status) && |c| == 2
    case Holding(_) => Begins(c) && |c| == 3 && c[1].AnswerVerify? && c[2].AfterVerify?
    case Preparing(_) => Begins(c) && |c| == 1
    case Prepared(_, status) => Begins(c) && |c| == 2 && c[1] == AnswerPrepare(status)
    case Checkpointing(_) => Begins(c) && |c| == 3 && c[1] == AnswerPrepare(READY) && c[2].AfterPrepare?
    case Sending(_) => Marks(c) && |c| == 4
    case Waiting(_) => Marks(c) && |c| == 5 && c[4].RequestSubmit?
    case Answered(_, result) =>
      && Marks(c) && (|c| == 5 || (|c| == 6 && c[4].RequestSubmit?)) && c[|c| - 1] == AnswerSubmit(result)
    case Interrupted(_) => Begins(c) && |c| == 1
    case Stuck(_, _) => Begins(c) && |c| == 1
    case Checking => Begins(c) && |c| == 1
    case Checked(status) => Begins(c) && |c| == 2 && c[1] == AnswerCheck(status)
    case Begun(id) => BeginsOperation(c, id) && |c| == 3
    case Marked(id) => BeginsOperation(c, id) && |c| == 4 && c[3].MarkReady?
    case Inserting(id) => BeginsOperation(c, id) && |c| == 5 && c[3].MarkReady? && c[4].StartInserting?
    case Inserted(id, proven, status) =>
      && BeginsOperation(c, id) && |c| == 6 && c[3].MarkReady? && c[4].StartInserting? && c[5] == AnswerInsert(proven, status)
  }

  /** One own step more. */
  lemma CycleGrows(steps: seq<Step>, k: nat)
    requires k < |steps|
    ensures Cycle(steps[..k + 1]) ==
              if steps[k].OtherWriter? then Cycle(steps[..k])
              else if steps[k].Start? then [steps[k]] else Cycle(steps[..k]) + [steps[k]]
  {
    assert steps[..k + 1][..k] == steps[..k];
  }

  lemma StepStands(w: World, step: Step, c: seq<Step>)
    requires Can(w, step) && Stands(c, w.flow) && !step.Start? && !step.OtherWriter?
    ensures Stands(c + [step], Do(w, step).flow)
  {
    hide ApplyAnswer, ApplyVerification, AfterInsertSession, FinishSubmit, ColdStart, HoldPrepared, SettleExpired, HoldManaged;
    hide FailInterrupted, FailStuck, MayCheckpoint, EffectiveStatus, Matches;
  }

  lemma StartStands(w: World, step: Step)
    requires Can(w, step) && step.Start?
    ensures Stands([step], Do(w, step).flow)
  {
  }

  /**
   * In every run, wherever the flow stands, its cycle has done exactly what leads there: a send is requested only after
   * the page was found ready and the durable mark was passed, an operation is begun only after a check found the page
   * ready, and it is inserted only after it was recorded, ready and inserting.
   */
  lemma {:induction false} CyclesInOrder(worlds: seq<World>, steps: seq<Step>, k: nat)
    requires Run(worlds, steps) && k < |worlds|
    ensures Stands(Cycle(steps[..k]), worlds[k].flow)
  {
    hide Do, Can, Stands;
    if k == 0 {
      NothingStands(worlds[0]);
    } else {
      CyclesInOrder(worlds, steps, k - 1);
      CycleGrows(steps, k - 1);
      if steps[k - 1].OtherWriter? {
        OthersKeepFlow(worlds[k - 1], steps[k - 1]);
      } else if steps[k - 1].Start? {
        StartStands(worlds[k - 1], steps[k - 1]);
      } else {
        StepStands(worlds[k - 1], steps[k - 1], Cycle(steps[..k - 1]));
      }
    }
  }

  lemma NothingStands(w: World)
    requires w.flow.Idle?
    ensures Stands([], w.flow)
  {
  }

  lemma OthersKeepFlow(w: World, step: Step)
    requires Can(w, step) && step.OtherWriter?
    ensures Do(w, step).flow == w.flow
  {
  }

  // ------------------------------------------------------ what may happen

  /** The page may answer anything, and the worker may fail or die anywhere. */
  lemma AnythingMayHappen(w: World, status: Status, result: SubmitResult, proven: bool, now: nat, resume: bool, lease: bool)
    ensures Can(w, Throw) && Can(w, Crash(now, resume, lease))
    ensures w.flow.Idle? ==> Can(w, Start(now, resume))
    ensures w.flow.Verifying? ==> Can(w, AnswerVerify(status))
    ensures w.flow.Preparing? ==> Can(w, AnswerPrepare(status))
    ensures w.flow.Sending? ==> Can(w, RequestSubmit) && Can(w, AnswerSubmit(result))
    ensures w.flow.Waiting? ==> Can(w, AnswerSubmit(result))
    ensures w.flow.Checking? ==> Can(w, AnswerCheck(status))
    ensures w.flow.Inserting? ==> Can(w, AnswerInsert(proven, status))
  {
  }

  /** The executor goes on from its answer, whatever became of the session. */
  lemma FlowGoesOn(w: World, own: bool, now: nat, limitRetryAt: nat)
    ensures w.flow.Settling? ==> Can(w, Settle(now))
    ensures w.flow.Verified? ==> Can(w, AfterVerify(now, limitRetryAt))
    ensures w.flow.Holding? ==> Can(w, Hold(now))
    ensures w.flow.Prepared? ==> Can(w, AfterPrepare(now, limitRetryAt))
    ensures w.flow.Checkpointing? ==> Can(w, PassCheckpoint(now))
    ensures w.flow.Answered? ==> Can(w, AfterSubmit(now))
    ensures w.flow.Interrupted? ==> Can(w, FailInserted(now))
    ensures w.flow.Stuck? ==> Can(w, FailExpired(now))
    ensures w.flow.Checked? && w.flow.status != READY ==> Can(w, AfterCheck(own, now, limitRetryAt))
    ensures w.flow.Inserted? ==> Can(w, AfterInsert(own, now, limitRetryAt))
    ensures w.flow.Begun? && Matches(w.session, w.flow.id, CHECKING) ==> Can(w, MarkReady)
    ensures w.flow.Marked? && Matches(w.session, w.flow.id, READY_TO_INSERT) ==> Can(w, StartInserting)
  {
  }

  /** A ready page lets a new operation begin once the last one has ended. */
  lemma MayBeginAfterTheLast(w: World, id: Id, now: nat)
    ensures Can(w, BeginOperation(id, now)) <==>
              && w.flow == Checked(READY) && id !in w.begun
              && (w.session.operation.Some? ==> w.session.operation.value.phase in {SENT, FAILED_SAFE})
    ensures Can(w, BeginOperation(id, now)) ==>
              var op := Do(w, BeginOperation(id, now)).session.operation;
              && op.Some? && op.value.id == id && op.value.phase.CHECKING? && op.value.createdAt == now
              && op.value.preSendDeadline == 0 && op.value.submitStartedAt == 0 && op.value.verificationDeadline == 0 && !op.value.nativeSubmitDispatched
  {
  }

  /** Anybody else may reconfigure, pause or stop the session, drop its operation, or settle it one way or another. */
  lemma OthersAreFree(w: World, t: Session)
    ensures t.operation == w.session.operation || t.operation.None? ==> Can(w, OtherWriter(t))
    ensures (w.session.operation.Some? && t.operation.Some? && t.operation.value.id == w.session.operation.value.id
             && t.operation.value.phase in {AMBIGUOUS, FAILED_SAFE, MANUAL_REVIEW, SENT}) ==> Can(w, OtherWriter(t))
  {
  }
}
