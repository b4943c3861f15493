/** What the row says in every reachable state: how a run that ended ended, how a run that
    went back to the queue waits, how long a lease lasts. */
module Endings {
  import opened Wrappers
  import opened Ledger
  import opened ResultSink
  import opened Worker
  import opened Protocol
  import opened Preservation
  import opened Guarantees

  // ---- what a statement leaves of a worker ----

  /** The lease of a worker and the snapshot taken with it do not change. */
  predicate SameSnapshot(w: Worker, n: Option<Worker>) {
    n.Some? ==> n.value.staged == w.staged && n.value.token == w.token && n.value.verifications == w.verifications
  }

  lemma EarlyKeepsSnapshot(c: Config, sh: Shared, w: Worker, out: Outcome, p: Payload, now: Time, e: Env)
    requires w.pc.Stage? || w.pc.Probe? || w.pc.Fence? || w.pc.MarkPending?
    ensures SameSnapshot(w, AdvanceStaged(c, sh, w, out, p, now, e).worker)
  {
  }

  lemma PublishKeepsSnapshot(c: Config, sh: Shared, w: Worker, out: Outcome, p: Payload, now: Time, e: Env)
    requires w.pc.Publish? || w.pc.ReadBack?
    ensures SameSnapshot(w, AdvanceStaged(c, sh, w, out, p, now, e).worker)
  {
  }

  lemma LateKeepsSnapshot(c: Config, sh: Shared, w: Worker, out: Outcome, p: Payload, now: Time, e: Env)
    requires !w.pc.Stage? && !w.pc.Probe? && !w.pc.Fence? && !w.pc.MarkPending? && !w.pc.Publish? && !w.pc.ReadBack?
    ensures SameSnapshot(w, AdvanceStaged(c, sh, w, out, p, now, e).worker)
  {
  }

  lemma StagedKeepsSnapshot(c: Config, sh: Shared, w: Worker, out: Outcome, p: Payload, now: Time, e: Env)
    ensures SameSnapshot(w, AdvanceStaged(c, sh, w, out, p, now, e).worker)
  {
    if w.pc.Stage? || w.pc.Probe? || w.pc.Fence? || w.pc.MarkPending? {
      EarlyKeepsSnapshot(c, sh, w, out, p, now, e);
    } else if w.pc.Publish? || w.pc.ReadBack? {
      PublishKeepsSnapshot(c, sh, w, out, p, now, e);
    } else {
      LateKeepsSnapshot(c, sh, w, out, p, now, e);
    }
  }

  lemma DecideKeepsSnapshot(sh: Shared, w: Worker, e: Env)
    ensures SameSnapshot(w, DecideNext(sh, w, e).worker)
  {
  }

  lemma StepKeepsSnapshot(c: Config, sh: Shared, w: Worker, now: Time, e: Env)
    ensures SameSnapshot(w, Advance(c, sh, w, now, e).worker)
  {
    DecideKeepsSnapshot(sh, w, e);
    if w.execution.Returned? && w.payload.Some? {
      StagedKeepsSnapshot(c, sh, w, w.execution.out, w.payload.value, now, e);
    }
  }

  // ---- how a live run can change ----

  /** The run went back to the queue: one verification more, and the delay from now. */
  predicate WentBack(c: Config, s: Sys, r': Row) {
    var r := s.shared.row;
    && r.status.Running? && r.pending && r'.status.Queued? && r'.pending
    && r'.verifications == r.verifications + 1 && r'.verifications < c.maxVerifications
    && r'.retryAt == Some(s.now + VerificationDelay(c.backoff, r.verifications))
    && r'.workerId.None? && r'.token.None? && r'.expires.None? && r'.attempt == r.attempt
  }

  /** The run was leased: from now for the length of a lease. */
  predicate WasLeased(c: Config, s: Sys, r': Row) {
    var r := s.shared.row;
    && r'.status.Running? && r'.workerId.Some? && r'.token.Some? && r'.token.value !in s.hist.issued
    && r'.expires == Some(s.now + c.lease) && r'.attempt == r.attempt + 1 && r'.retryAt.None?
    && r'.verifications == r.verifications && r'.pending == r.pending
  }

  /** A live run stays live: nothing is said of an end, and its lease is as it was, is
      extended from now, is new, or is given back. */
  predicate GoesOn(c: Config, s: Sys, r': Row) {
    var r := s.shared.row;
    && r'.createdAt == r.createdAt && r'.completedAt == r.completedAt && r'.terminalState == r.terminalState
    && r'.failure == r.failure && r'.completion == r.completion
    && (|| WentBack(c, s, r') || WasLeased(c, s, r')
        || (&& r'.status == r.status && r'.workerId == r.workerId && r'.token == r.token && r'.attempt == r.attempt
            && r'.verifications == r.verifications && (r'.retryAt == r.retryAt || r'.retryAt.None?)
            && (r'.expires == r.expires || (r.expires.Some? && r'.expires == Some(s.now + c.lease)))))
  }

  /** Why a run failed, and what goes with it. */
  ghost predicate FailedFor(c: Config, s: Sys, r': Row) {
    var r := s.shared.row;
    && r'.failure.Some? && r'.terminalState == "malfunction" && r'.completion == r.completion
    && match r'.failure.value.code
       case "worker_attempts_exhausted" =>
         !r'.failure.value.retryable && r.payload.None? && r.attempt >= c.maxAttempts && !r.cancelRequested
       case "execution_failed" => !r'.failure.value.retryable && !r.pending && r'.response == r.response
       case "defense_validation_malfunction" =>
         && !r'.failure.value.retryable && !r.pending && !r.cancelRequested
         && r'.response.Some? && r'.response.value.decoded.content.terminalState == "malfunction"
       case "result_store_unavailable" =>
         r'.failure.value.retryable && !r.pending && !r.cancelRequested && r'.payload.Some? && r'.response == r'.payload
       case "publication_verification_failed" =>
         && !r'.failure.value.retryable && r.pending
         && r'.verifications == r.verifications + 1 && r'.verifications >= c.maxVerifications
       case "result_publication_conflict" =>
         !r'.failure.value.retryable && r.pending && r'.verifications == r.verifications && Disputed(s, r)
       case _ => false
  }

  /** Under the run's result id the table holds something, and not just the staged row. */
  ghost predicate Disputed(s: Sys, r: Row) {
    && r.payload.Some? && Matching(s.shared.table, r.resultId) != []
    && Matching(s.shared.table, r.resultId) != [SinkRow(r.runId, r.resultId, r.payload.value)]
  }

  /** The completion document says what the row and its payload say. */
  predicate CompletionSays(r: Row) {
    && r.completion.Some? && r.payload.Some? && r.response == r.payload && r.failure.None?
    && r.completion.value.runId == r.runId && r.completion.value.resultId == r.resultId
    && r.completion.value.terminalState == r.terminalState
    && r.terminalState == r.payload.value.decoded.content.terminalState
    && r.completion.value.ref == r.payload.value.decoded.content.ref
    && r.completion.value.digest == r.payload.value.decoded.digest
  }

  /** A live run ends: now, and in one of three ways. */
  ghost predicate EndsNow(c: Config, s: Sys, r': Row) {
    var r := s.shared.row;
    && r'.createdAt == r.createdAt && r'.completedAt == Some(s.now)
    && match r'.status
       case Completed => CompletionSays(r')
       case Failed => FailedFor(c, s, r')
       case Canceled => r'.terminalState == "canceled" && r'.failure == r.failure && r'.completion == r.completion
                        && r'.cancelRequested && !r.pending
       case _ => false
  }

  ghost predicate Moves(c: Config, s: Sys, r': Row) {
    if Terminal(r'.status) then EndsNow(c, s, r') else GoesOn(c, s, r')
  }

  /** What is known of live rows and of workers besides the invariant of the protocol. */
  ghost predicate Facts(s: Sys) {
    var r := s.shared.row;
    && (!Terminal(r.status) ==> r.completedAt.None? && r.terminalState == "")
    && forall i :: i in s.workers ==> WorkerFacts(s, s.workers[i])
  }

  predicate WorkerFacts(s: Sys, w: Worker) {
    && (Current(s, w) ==> w.verifications == s.shared.row.verifications)
    && (w.pc.FailConflict? && w.execution.Returned? && w.payload.Some? ==>
          Classify(s.shared.table, RowFor(w.execution.out, w.payload.value)) == Conflict)
    && (w.pc.FailMalfunction? && w.execution.Returned? ==> w.execution.out.content.terminalState == MALFUNCTION)
  }

  /** A worker at its next statement, in a live run. */
  ghost predicate Acts(c: Config, s: Sys, w: Worker, e: Env) {
    Ready(c, s, w, e) && Facts(s) && WorkerFacts(s, w) && !Terminal(s.shared.row.status)
  }

  // ---- statement by statement ----

  lemma CancelMoves(c: Config, s: Sys, w: Worker, e: Env)
    requires Acts(c, s, w, e) && w.pc.MarkCancel?
    ensures Moves(c, s, After(c, s, w, e).shared.row)
  {
  }

  lemma FailRunMoves(c: Config, s: Sys, w: Worker, e: Env)
    requires Acts(c, s, w, e) && w.pc.FailRun?
    ensures Moves(c, s, After(c, s, w, e).shared.row)
  {
  }

  lemma FailMalfunctionMoves(c: Config, s: Sys, w: Worker, e: Env)
    requires Acts(c, s, w, e) && w.pc.FailMalfunction?
    ensures Moves(c, s, After(c, s, w, e).shared.row)
  {
  }

  lemma FailUnavailableMoves(c: Config, s: Sys, w: Worker, e: Env)
    requires Acts(c, s, w, e) && w.pc.FailUnavailable?
    ensures Moves(c, s, After(c, s, w, e).shared.row)
  {
  }

  lemma ConflictIsDisputed(c: Config, s: Sys, w: Worker, e: Env)
    requires Acts(c, s, w, e) && w.pc.FailConflict?
    ensures Disputed(s, s.shared.row)
  {
  }

  lemma FailConflictMoves(c: Config, s: Sys, w: Worker, e: Env)
    requires Acts(c, s, w, e) && w.pc.FailConflict?
    ensures Moves(c, s, After(c, s, w, e).shared.row)
  {
    ConflictIsDisputed(c, s, w, e);
  }

  lemma RetryMoves(c: Config, s: Sys, w: Worker, e: Env)
    requires Acts(c, s, w, e) && w.pc.RetryLater?
    ensures Moves(c, s, After(c, s, w, e).shared.row)
  {
  }

  lemma CompleteMoves(c: Config, s: Sys, w: Worker, e: Env)
    requires Acts(c, s, w, e) && w.pc.Complete?
    ensures Moves(c, s, After(c, s, w, e).shared.row)
  {
    CompleteEnds(c, s, w, e);
    CompletesAtOnce(c, s, w, e);
  }

  lemma CompletesAtOnce(c: Config, s: Sys, w: Worker, e: Env)
    requires Acts(c, s, w, e) && w.pc.Complete?
    ensures var r, r' := s.shared.row, After(c, s, w, e).shared.row;
            r' == r || (r'.status.Completed? && r'.createdAt == r.createdAt && r'.completedAt == Some(s.now))
  {
  }

  lemma QuietMoves(c: Config, s: Sys, w: Worker, e: Env)
    requires Acts(c, s, w, e)
    requires w.pc.Start? || w.pc.Executing? || w.pc.Decide? || w.pc.Stage? || w.pc.Probe? || w.pc.Fence?
    ensures Moves(c, s, After(c, s, w, e).shared.row)
  {
    if w.pc.Stage? {
      StageStages(c, s, w, e);
    } else if w.pc.Probe? || w.pc.Fence? {
      FenceBeats(c, s, w, e);
    } else {
      QuietChanges(c, s, w, e);
    }
  }

  lemma PublishMoves(c: Config, s: Sys, w: Worker, e: Env)
    requires Acts(c, s, w, e) && (w.pc.MarkPending? || w.pc.Publish? || w.pc.ReadBack? || w.pc.Verify?)
    ensures Moves(c, s, After(c, s, w, e).shared.row)
  {
    if w.pc.MarkPending? {
      MarkPendingMarks(c, s, w, e);
    } else if w.pc.Publish? {
      PublishPublishes(c, s, w, e);
    } else {
      ReadReads(c, s, w, e);
    }
  }

  lemma StatementMoves(c: Config, s: Sys, w: Worker, e: Env)
    requires Acts(c, s, w, e)
    ensures Moves(c, s, After(c, s, w, e).shared.row)
  {
    match w.pc {
      case MarkCancel => CancelMoves(c, s, w, e);
      case FailRun => FailRunMoves(c, s, w, e);
      case FailMalfunction => FailMalfunctionMoves(c, s, w, e);
      case FailUnavailable => FailUnavailableMoves(c, s, w, e);
      case FailConflict => FailConflictMoves(c, s, w, e);
      case RetryLater => RetryMoves(c, s, w, e);
      case Complete => CompleteMoves(c, s, w, e);
      case MarkPending => PublishMoves(c, s, w, e);
      case Publish => PublishMoves(c, s, w, e);
      case ReadBack => PublishMoves(c, s, w, e);
      case Verify => PublishMoves(c, s, w, e);
      case _ => QuietMoves(c, s, w, e);
    }
  }

  // ---- action by action ----

  lemma LeaseMoves(c: Config, s: Sys, a: Action)
    requires Inv(c, s) && Facts(s) && a.Lease? && !Terminal(s.shared.row.status)
    ensures Moves(c, s, Apply(c, s, a).shared.row)
  {
    LeaseGrants(c, s, a);
    var s' := DoLease(c, s, a);
    if s' != s {
      assert WasLeased(c, s, s'.shared.row);
    }
  }

  lemma SweepMoves(c: Config, s: Sys, a: Action)
    requires Inv(c, s) && Facts(s) && !Terminal(s.shared.row.status)
    requires a.RequestCancel? || a.RecoverOrphan? || a.SweepExhausted?
    ensures Moves(c, s, Apply(c, s, a).shared.row)
  {
  }

  /** Neither the clock nor a crash nor a MERGE touches the row, and a live run has no
      event to claim or to resolve. */
  lemma OtherActionsLeaveTheRow(c: Config, s: Sys, a: Action)
    requires Inv(c, s) && !Terminal(s.shared.row.status)
    requires a.Tick? || a.Crash? || a.LateMerge? || a.ForeignMerge? || a.Claim? || a.Resolve?
    ensures Apply(c, s, a).shared.row == s.shared.row
  {
  }

  /** Every action moves a live run in one of these ways, or leaves it as it is. */
  lemma ActionMoves(c: Config, s: Sys, a: Action)
    requires Inv(c, s) && Facts(s) && !Terminal(s.shared.row.status)
    ensures Moves(c, s, Apply(c, s, a).shared.row)
  {
    if a.Lease? {
      LeaseMoves(c, s, a);
    } else if a.Step? {
      if a.w in s.workers && OwnOutcome(s.shared.row, a.env.execution) {
        StatementMoves(c, s, s.workers[a.w], a.env);
      }
    } else if a.HeartbeatTick? {
      BeatBeats(c, s, a.w, a.fault, a.late);
    } else if a.RequestCancel? || a.RecoverOrphan? || a.SweepExhausted? {
      SweepMoves(c, s, a);
    } else {
      OtherActionsLeaveTheRow(c, s, a);
    }
  }

  // ---- the facts are kept ----

  lemma DisputeStays(s: Sys, s': Sys, w: Worker)
    requires WorkerFacts(s, w) && TableLater(s.shared.table, s'.shared.table)
    requires Current(s', w) ==> Current(s, w) && s'.shared.row.verifications == s.shared.row.verifications
    ensures WorkerFacts(s', w)
  {
  }

  /** Verifications are counted only when the lease is given back. */
  lemma CountedOnRelease(c: Config, s: Sys, s': Sys, tok: Token)
    requires Inv(c, s) && SomeChange(c, s, s'.shared.row) && s'.shared.row.token == Some(tok) && tok in s.hist.issued
    ensures s.shared.row.token == Some(tok) && s'.shared.row.verifications == s.shared.row.verifications
  {
    var k :| Changed(c, s, s'.shared.row, k);
  }

  lemma DecidedMalfunction(sh: Shared, w: Worker, e: Env)
    ensures var n := DecideNext(sh, w, e).worker;
            n.Some? && n.value.pc.FailMalfunction? ==>
              n.value.execution.Returned? && n.value.execution.out.content.terminalState == MALFUNCTION
    ensures var n := DecideNext(sh, w, e).worker; n.Some? ==> !n.value.pc.FailConflict?
  {
    if w.execution.Returned? {
      RouteIsElsewhere(w, w.execution.out);
    }
  }

  lemma RouteIsElsewhere(w: Worker, out: Outcome)
    ensures !Route(w, out).FailConflict? && !Route(w, out).FailMalfunction?
  {
  }

  lemma ReadDisputes(c: Config, s: Sys, w: Worker, e: Env)
    requires Ready(c, s, w, e) && (w.pc.ReadBack? || w.pc.Verify?)
    ensures var n := NextWorker(c, s, w, e);
            n.Some? && n.value.pc.FailConflict? ==>
              Classify(s.shared.table, RowFor(w.execution.out, w.payload.value)) == Conflict
  {
  }

  /** Where a statement can lead to a failure for a conflict or a malfunction. */
  lemma NextFacts(c: Config, s: Sys, w: Worker, e: Env)
    requires Ready(c, s, w, e)
    ensures var n := NextWorker(c, s, w, e); var t := After(c, s, w, e).shared.table;
            n.Some? && n.value.execution.Returned? && n.value.payload.Some? && n.value.pc.FailConflict? ==>
              Classify(t, RowFor(n.value.execution.out, n.value.payload.value)) == Conflict
    ensures var n := NextWorker(c, s, w, e);
            n.Some? && n.value.pc.FailMalfunction? && n.value.execution.Returned? ==>
              n.value.execution.out.content.terminalState == MALFUNCTION
  {
    if w.pc.Decide? {
      DecidedMalfunction(s.shared, w, e);
    } else if w.pc.ReadBack? || w.pc.Verify? {
      ReadReads(c, s, w, e);
      ReadDisputes(c, s, w, e);
    } else if w.pc.Stage? {
      StageGoes(c, s, w, e);
      RouteIsElsewhere(w, w.execution.out);
    } else if w.pc.Probe? || w.pc.Fence? {
      FenceBeats(c, s, w, e);
    } else if w.pc.MarkPending? {
      MarkPendingMarks(c, s, w, e);
    } else if w.pc.Publish? {
      PublishPublishes(c, s, w, e);
    } else if w.pc.RetryLater? {
      RetryRetries(c, s, w, e);
    } else {
      NothingFollows(c, s, w, e);
    }
  }

  lemma NothingFollows(c: Config, s: Sys, w: Worker, e: Env)
    requires w.pc.Start? || w.pc.Executing? || w.pc.MarkCancel? || w.pc.FailRun? || w.pc.FailMalfunction?
             || w.pc.FailUnavailable? || w.pc.FailConflict? || w.pc.Complete?
    ensures var n := NextWorker(c, s, w, e); n.Some? ==> n.value.pc.Executing? || n.value.pc.Decide?
  {
  }

  /** A worker that an action leaves alone keeps its facts. */
  lemma OthersKeepFacts(c: Config, s: Sys, a: Action, i: WorkerId)
    requires Inv(c, s) && Facts(s) && i in s.workers
    ensures WorkerFacts(Apply(c, s, a), s.workers[i])
  {
    var s' := Apply(c, s, a);
    var w := s.workers[i];
    ApplyChanges(c, s, a);
    ApplyIsLater(c, s, a);
    assert WorkerInv(s, w);
    if Current(s', w) {
      CountedOnRelease(c, s, s', w.token);
    }
    DisputeStays(s, s', w);
  }

  lemma StepperKeepsFacts(c: Config, s: Sys, id: WorkerId, e: Env)
    requires Inv(c, s) && Facts(s) && id in s.workers && OwnOutcome(s.shared.row, e.execution)
    requires id in Apply(c, s, Step(id, e)).workers
    ensures var s' := Apply(c, s, Step(id, e)); WorkerFacts(s', s'.workers[id])
  {
    var s', w := Apply(c, s, Step(id, e)), s.workers[id];
    assert WorkerInv(s, w);
    var n := NextWorker(c, s, w, e).value;
    NextFacts(c, s, w, e);
    StepKeepsSnapshot(c, s.shared, w, s.now, e);
    OthersKeepFacts(c, s, Step(id, e), id);
    assert s'.workers[id] == n && s'.shared.table == After(c, s, w, e).shared.table;
  }

  lemma WorkersKeepFacts(c: Config, s: Sys, a: Action, i: WorkerId)
    requires Inv(c, s) && Facts(s) && i in Apply(c, s, a).workers
    ensures WorkerFacts(Apply(c, s, a), Apply(c, s, a).workers[i])
  {
    var s' := Apply(c, s, a);
    if i in s.workers && s'.workers[i] == s.workers[i] {
      OthersKeepFacts(c, s, a, i);
    } else if a.Step? {
      StepperKeepsFacts(c, s, i, a.env);
    } else if a.HeartbeatTick? {
      BeatBeats(c, s, a.w, a.fault, a.late);
      OthersKeepFacts(c, s, a, i);
    } else {
      LeaseGrants(c, s, a);
    }
  }

  lemma ActionKeepsFacts(c: Config, s: Sys, a: Action)
    requires Inv(c, s) && Facts(s)
    ensures Facts(Apply(c, s, a))
  {
    var s' := Apply(c, s, a);
    forall i | i in s'.workers ensures WorkerFacts(s', s'.workers[i]) {
      WorkersKeepFacts(c, s, a, i);
    }
    if Terminal(s.shared.row.status) {
      ApplyIsLater(c, s, a);
    } else {
      ActionMoves(c, s, a);
    }
  }

  lemma {:induction false} RunKeepsFacts(c: Config, s: Sys, actions: seq<Action>)
    requires Inv(c, s) && Facts(s)
    ensures Facts(Run(c, s, actions))
    decreases |actions|
  {
    if actions != [] {
      ActionKeepsFacts(c, s, actions[0]);
      ApplyKeeps(c, s, actions[0]);
      RunKeepsFacts(c, Apply(c, s, actions[0]), actions[1..]);
    }
  }

  // ---- the row of an ended run ----

  /** What is on record of a failed run, by its failure code. */
  ghost predicate FailureSays(c: Config, s: Sys) {
    var r := s.shared.row;
    && r.failure.Some? && r.completion.None? && r.terminalState == "malfunction"
    && (r.failure.value.retryable <==> r.failure.value.code == "result_store_unavailable")
    && match r.failure.value.code
       case "worker_attempts_exhausted" => r.payload.None? && r.attempt >= c.maxAttempts
       case "execution_failed" => true
       case "defense_validation_malfunction" =>
         r.response.Some? && r.response.value.decoded.content.terminalState == "malfunction"
       case "result_store_unavailable" => r.payload.Some? && r.response == r.payload
       case "publication_verification_failed" => r.payload.Some? && r.verifications >= c.maxVerifications
       case "result_publication_conflict" => Disputed(s, r)
       case _ => false
  }

  ghost predicate EndSays(c: Config, s: Sys) {
    var r := s.shared.row;
    && r.createdAt <= s.now
    && (Terminal(r.status) ==> r.completedAt.Some? && r.createdAt <= r.completedAt.value <= s.now)
    && match r.status
       case Completed => CompletionSays(r)
       case Failed => FailureSays(c, s)
       case Canceled => r.terminalState == "canceled" && r.failure.None? && r.completion.None? && r.cancelRequested
       case _ => r.completedAt.None? && r.terminalState == "" && r.failure.None? && r.completion.None?
  }

  lemma EndStays(c: Config, s: Sys, s': Sys)
    requires EndSays(c, s) && Terminal(s.shared.row.status) && s.now <= s'.now
    requires RowLater(s.shared.row, s'.shared.row) && TableLater(s.shared.table, s'.shared.table)
    ensures EndSays(c, s')
  {
  }

  lemma FailureIsOnRecord(c: Config, s: Sys, s': Sys)
    requires Inv(c, s) && EndSays(c, s) && !Terminal(s.shared.row.status) && s'.shared.row.status.Failed?
    requires EndsNow(c, s, s'.shared.row) && RowLater(s.shared.row, s'.shared.row)
    requires TableLater(s.shared.table, s'.shared.table)
    requires s'.shared.row.payload == s.shared.row.payload && s'.shared.row.attempt == s.shared.row.attempt
    ensures FailureSays(c, s')
  {
  }

  lemma EndingKeepsPayload(c: Config, s: Sys, a: Action)
    requires Inv(c, s) && !Terminal(s.shared.row.status) && Apply(c, s, a).shared.row.status.Failed?
    ensures var r, r' := s.shared.row, Apply(c, s, a).shared.row; r'.payload == r.payload && r'.attempt == r.attempt
  {
    if a.Step? && a.w in s.workers && OwnOutcome(s.shared.row, a.env.execution) {
      StatementKeepsPayload(c, s, s.workers[a.w], a.env);
    } else if a.HeartbeatTick? {
      BeatBeats(c, s, a.w, a.fault, a.late);
    } else if a.Lease? {
      LeaseGrants(c, s, a);
    }
  }

  lemma StatementKeepsPayload(c: Config, s: Sys, w: Worker, e: Env)
    requires Ready(c, s, w, e) && !Terminal(s.shared.row.status) && After(c, s, w, e).shared.row.status.Failed?
    ensures var r, r' := s.shared.row, After(c, s, w, e).shared.row; r'.payload == r.payload && r'.attempt == r.attempt
  {
    if w.pc.Stage? {
      StageStages(c, s, w, e);
    } else if w.pc.Start? || w.pc.Executing? || w.pc.Decide? {
      QuietChanges(c, s, w, e);
    } else if w.pc.Probe? || w.pc.Fence? {
      FenceBeats(c, s, w, e);
    } else if w.pc.MarkPending? {
      MarkPendingMarks(c, s, w, e);
    } else if w.pc.Publish? {
      PublishPublishes(c, s, w, e);
    } else if w.pc.ReadBack? || w.pc.Verify? {
      ReadReads(c, s, w, e);
    } else if w.pc.RetryLater? {
      RetryRetries(c, s, w, e);
    } else if w.pc.Complete? {
      CompleteEnds(c, s, w, e);
    } else {
      AbortEnds(c, s, w, e);
    }
  }

  lemma TimeGoesOn(c: Config, s: Sys, a: Action)
    ensures s.now <= Apply(c, s, a).now
  {
  }

  lemma ActionKeepsEnd(c: Config, s: Sys, a: Action)
    requires Inv(c, s) && Facts(s) && EndSays(c, s)
    ensures EndSays(c, Apply(c, s, a))
  {
    var s' := Apply(c, s, a);
    TimeGoesOn(c, s, a);
    ApplyIsLater(c, s, a);
    if Terminal(s.shared.row.status) {
      EndStays(c, s, s');
    } else {
      ActionMoves(c, s, a);
      if s'.shared.row.status.Failed? {
        EndingKeepsPayload(c, s, a);
        FailureIsOnRecord(c, s, s');
      }
      SameCreation(c, s, s');
    }
  }

  lemma SameCreation(c: Config, s: Sys, s': Sys)
    requires Moves(c, s, s'.shared.row)
    ensures s'.shared.row.createdAt == s.shared.row.createdAt
    ensures Terminal(s'.shared.row.status) ==> s'.shared.row.completedAt == Some(s.now)
  {
  }

  lemma {:induction false} RunKeepsEnd(c: Config, s: Sys, actions: seq<Action>)
    requires Inv(c, s) && Facts(s) && EndSays(c, s)
    ensures EndSays(c, Run(c, s, actions))
    decreases |actions|
  {
    if actions != [] {
      ActionKeepsEnd(c, s, actions[0]);
      ActionKeepsFacts(c, s, actions[0]);
      ApplyKeeps(c, s, actions[0]);
      RunKeepsEnd(c, Apply(c, s, actions[0]), actions[1..]);
    }
  }

  lemma Reached(c: Config, s0: Sys, actions: seq<Action>)
    requires Init(s0)
    ensures var s := Run(c, s0, actions); Inv(c, s) && Facts(s) && EndSays(c, s)
  {
    InitInv(c, s0);
    Reach(c, s0, actions);
    RunKeepsFacts(c, s0, actions);
    RunKeepsEnd(c, s0, actions);
  }

  /** In every reachable state, a completed run's completion document names this run, its
      result and its terminal state, and carries the reference and the digest of its
      payload. */
  lemma CompletedRunSays(c: Config, s0: Sys, actions: seq<Action>)
    requires Init(s0) && Run(c, s0, actions).shared.row.status.Completed?
    ensures var r := Run(c, s0, actions).shared.row;
            && r.completion.Some? && r.payload.Some? && r.failure.None? && r.completedAt.Some?
            && r.completion.value.runId == r.runId && r.completion.value.resultId == r.resultId
            && r.completion.value.terminalState == r.terminalState
            && r.terminalState == r.payload.value.decoded.content.terminalState
            && r.completion.value.ref == r.payload.value.decoded.content.ref
            && r.completion.value.digest == r.payload.value.decoded.digest
  {
    Reached(c, s0, actions);
  }

  /** A failed run carries one of six failures, with what belongs to it. */
  lemma FailedRunSays(c: Config, s0: Sys, actions: seq<Action>)
    requires Init(s0) && Run(c, s0, actions).shared.row.status.Failed?
    ensures FailureSays(c, Run(c, s0, actions))
  {
    Reached(c, s0, actions);
  }

  /** A live run says nothing of an end, a canceled one only that. */
  lemma OtherRunsSayNothing(c: Config, s0: Sys, actions: seq<Action>)
    requires Init(s0)
    ensures var r := Run(c, s0, actions).shared.row;
            && (r.status.Canceled? ==> r.terminalState == "canceled" && r.cancelRequested && r.completedAt.Some?
                                       && r.failure.None? && r.completion.None?)
            && (!Terminal(r.status) ==> r.terminalState == "" && r.completedAt.None?
                                        && r.failure.None? && r.completion.None?)
  {
    Reached(c, s0, actions);
  }

  /** Whatever happens to a live run, it stays live with its lease as it was, extended,
      new or given back until the retry delay has passed, or it ends now, on record. */
  lemma LiveRunMoves(c: Config, s0: Sys, actions: seq<Action>, a: Action)
    requires Init(s0) && !Terminal(Run(c, s0, actions).shared.row.status)
    ensures var s := Run(c, s0, actions); Moves(c, s, Apply(c, s, a).shared.row)
  {
    Reached(c, s0, actions);
    ActionMoves(c, Run(c, s0, actions), a);
  }
}
