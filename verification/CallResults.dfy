/** What one call of executeOne does to the run and to the table, column by column, when
    the ledger answers and the lease outlasts the call; and where it stops when the ledger
    does not answer. */
module CallResults {
  import opened Wrappers
  import opened Ledger
  import opened ResultSink
  import opened Worker
  import opened Machine

  // ---- the circumstances ----

  /** No statement on the ledger fails, and the call takes less time than a lease. */
  ghost predicate Calm(c: Config, o: Oracle) {
    (forall pc :: o.env(pc).fault.NoFault?) && forall p, q :: o.at(p) < o.at(q) + c.lease
  }

  /** The worker holds the run's lease, beyond every statement of the call. */
  ghost predicate Live(r: Row, w: Worker, o: Oracle) {
    r.workerId == Some(w.id) && r.token == Some(w.token) && r.status.Running? && r.expires.Some? &&
    forall pc :: o.at(pc) < r.expires.value
  }

  /** The worker starts from what the row holds. */
  predicate Snapshot(r: Row, w: Worker) {
    w.pc.Start? && w.staged == r.payload && r.response == r.payload && w.pending == r.pending &&
    w.verifications == r.verifications && w.payload.None? && (r.pending ==> r.payload.Some?) &&
    (w.cancelSeen ==> r.cancelRequested) &&
    (r.payload.Some? ==>
       IsSealed(r.payload.value.decoded) && r.payload.value.decoded.content.terminalState != "malfunction")
  }

  predicate IsSealed(out: Outcome) { out.digest == Sha256(out.content) }

  /** The reference is one of the result table, under the outcome's own result id. */
  predicate NamesItsResult(out: Outcome) {
    out.content.ref.Some? && out.content.ref.value.system == "databricks"
    && out.content.ref.value.key == out.content.resultId
  }

  // ---- the results ----

  /** The run has ended: at this time, with its lease released and its event due. */
  predicate AtRest(r: Row, t: Row, now: Time) {
    t.runId == r.runId && t.resultId == r.resultId && t.completedAt == Some(now) && !t.pending &&
    t.workerId.None? && t.token.None? && t.expires.None? &&
    t.attempt == r.attempt && t.cancelRequested == r.cancelRequested &&
    t.outbox == if r.outbox.hasUrl then r.outbox.(state := Some(Pending), nextAt := now) else r.outbox
  }

  predicate EndsCompleted(r: Row, t: Row, out: Outcome, now: Time) {
    AtRest(r, t, now) && t.status.Completed? && t.terminalState == out.content.terminalState &&
    t.payload == Some(Payload(out)) && t.response == Some(Payload(out)) && t.failure == r.failure &&
    t.completion.Some? && t.completion.value.runId == out.content.runId &&
    t.completion.value.resultId == out.content.resultId &&
    t.completion.value.terminalState == out.content.terminalState &&
    t.completion.value.ref == out.content.ref && t.completion.value.digest == out.digest
  }

  predicate EndsFailed(r: Row, t: Row, code: string, retryable: bool, now: Time) {
    AtRest(r, t, now) && t.status.Failed? && t.terminalState == "malfunction" && t.failure.Some? &&
    t.failure.value.code == code && t.failure.value.retryable == retryable &&
    t.completion == r.completion && t.payload == r.payload
  }

  predicate EndsCanceled(r: Row, t: Row, now: Time) {
    AtRest(r, t, now) && t.status.Canceled? && t.terminalState == "canceled" &&
    t.payload == r.payload && t.response == r.response && t.failure == r.failure && t.completion == r.completion
  }

  /** Back in the queue, still pending, until the delay has passed. */
  predicate GoesBack(r: Row, t: Row, delay: Time, now: Time) {
    t.status.Queued? && t.pending && t.retryAt == Some(now + delay) && t.verifications == r.verifications + 1 &&
    t.workerId.None? && t.token.None? && t.expires.None? && t.completedAt.None? && t.failure.None? &&
    t.terminalState == "" && t.payload == r.payload && t.response == r.response && t.attempt == r.attempt &&
    t.outbox == r.outbox
  }

  /** The publication could not be verified this time. */
  predicate GoesUnverified(c: Config, r: Row, t: Row, now: Time) {
    if r.verifications + 1 >= c.maxVerifications then
      EndsFailed(r, t, "publication_verification_failed", false, now) && t.verifications == r.verifications + 1
    else GoesBack(r, t, VerificationDelay(c.backoff, r.verifications), now)
  }

  /** What the table holds under the run's result id decides: exactly its own row, no row,
      or anything else; and nothing is decided when it cannot be read. */
  predicate EndsAsFound(c: Config, r: Row, t: Row, table: seq<SinkRow>, out: Outcome, o: Oracle) {
    var found := Matching(table, out.content.resultId);
    if o.env(Verify).refused || o.env(Verify).readFails then GoesUnverified(c, r, t, o.at(RetryLater))
    else if found == [SinkRow(out.content.runId, out.content.resultId, Payload(out))]
    then EndsCompleted(r, t, out, o.at(Complete))
    else if found == [] then GoesUnverified(c, r, t, o.at(RetryLater))
    else EndsFailed(r, t, "result_publication_conflict", false, o.at(FailConflict))
  }

  /** The own row is stored unless there is one under the result id. */
  function Stored(table: seq<SinkRow>, out: Outcome): seq<SinkRow> {
    if exists x :: x in table && x.resultId == out.content.resultId then table
    else table + [SinkRow(out.content.runId, out.content.resultId, Payload(out))]
  }

  // ---- the last statements ----

  /** What the statements behind the decisions need: the outcome, its bytes, the lease. */
  ghost predicate Ready(c: Config, sh: Shared, w: Worker, out: Outcome, o: Oracle) {
    w.execution == Returned(out) && w.payload == Some(Payload(out)) && IsSealed(out) &&
    Calm(c, o) && Live(sh.row, w, o)
  }

  lemma Completing(c: Config, sh: Shared, w: Worker, out: Outcome, o: Oracle)
    requires Ready(c, sh, w, out, o) && w.pc.Complete? && NamesItsResult(out)
    ensures var t := Drive(c, sh, w, o);
            t == sh.(row := t.row) && EndsCompleted(sh.row, t.row, out, o.at(Complete))
  {
    assert o.env(Complete).fault.NoFault?;
  }

  lemma FailingConflict(c: Config, sh: Shared, w: Worker, out: Outcome, o: Oracle)
    requires Ready(c, sh, w, out, o) && w.pc.FailConflict?
    ensures var t := Drive(c, sh, w, o);
            t == sh.(row := t.row)
            && EndsFailed(sh.row, t.row, "result_publication_conflict", false, o.at(FailConflict))
  {
    assert o.env(FailConflict).fault.NoFault?;
  }

  lemma Retrying(c: Config, sh: Shared, w: Worker, out: Outcome, o: Oracle)
    requires Ready(c, sh, w, out, o) && w.pc.RetryLater? && sh.row.pending && w.verifications == sh.row.verifications
    ensures var t := Drive(c, sh, w, o);
            t == sh.(row := t.row) && GoesUnverified(c, sh.row, t.row, o.at(RetryLater))
  {
    assert o.env(RetryLater).fault.NoFault?;
  }

  lemma FailingUnavailable(c: Config, sh: Shared, w: Worker, out: Outcome, o: Oracle)
    requires Ready(c, sh, w, out, o) && w.pc.FailUnavailable? && !sh.row.pending && !sh.row.cancelRequested
    ensures var t := Drive(c, sh, w, o);
            t == sh.(row := t.row) && t.row.response == Some(Payload(out))
            && EndsFailed(sh.row, t.row, "result_store_unavailable", true, o.at(FailUnavailable))
  {
    assert o.env(FailUnavailable).fault.NoFault?;
  }

  lemma Canceling(c: Config, sh: Shared, w: Worker, o: Oracle)
    requires Calm(c, o) && Live(sh.row, w, o) && w.pc.MarkCancel? && sh.row.cancelRequested && !sh.row.pending
    ensures var t := Drive(c, sh, w, o);
            t == sh.(row := t.row) && EndsCanceled(sh.row, t.row, o.at(MarkCancel))
  {
    assert o.env(MarkCancel).fault.NoFault?;
  }

  lemma FailingRun(c: Config, sh: Shared, w: Worker, o: Oracle)
    requires Calm(c, o) && Live(sh.row, w, o) && w.pc.FailRun? && !sh.row.pending
    ensures var t := Drive(c, sh, w, o);
            t == sh.(row := t.row) && EndsFailed(sh.row, t.row, "execution_failed", false, o.at(FailRun))
  {
    assert o.env(FailRun).fault.NoFault?;
  }

  lemma FailingMalfunction(c: Config, sh: Shared, w: Worker, out: Outcome, o: Oracle)
    requires Calm(c, o) && Live(sh.row, w, o) && w.pc.FailMalfunction? && w.execution == Returned(out)
    requires !sh.row.pending && !sh.row.cancelRequested
    ensures var t := Drive(c, sh, w, o);
            t == sh.(row := t.row) && t.row.response == Some(Payload(out))
            && EndsFailed(sh.row, t.row, "defense_validation_malfunction", false, o.at(FailMalfunction))
  {
    assert o.env(FailMalfunction).fault.NoFault?;
  }

  // ---- reconciliation ----

  lemma FoundAlone(table: seq<SinkRow>, row: SinkRow)
    ensures Classify(table, row) == Identical <==> Matching(table, row.resultId) == [row]
    ensures Classify(table, row) == Absent <==> Matching(table, row.resultId) == []
  {
  }

  /** One readback of the table settles a publication. */
  lemma Reconciling(c: Config, sh: Shared, w: Worker, out: Outcome, o: Oracle)
    requires Ready(c, sh, w, out, o) && w.pc.Verify? && NamesItsResult(out)
    requires sh.row.pending && w.verifications == sh.row.verifications
    ensures var t := Drive(c, sh, w, o);
            t == sh.(row := t.row) && EndsAsFound(c, sh.row, t.row, sh.table, out, o)
  {
    VerifyStep(c, sh, w, out, Payload(out), o);
    FoundAlone(sh.table, RowFor(out, Payload(out)));
    Completing(c, sh, w.(pc := Complete), out, o);
    Retrying(c, sh, w.(pc := RetryLater), out, o);
    FailingConflict(c, sh, w.(pc := FailConflict), out, o);
  }

  // ---- publication ----

  function OwnRow(out: Outcome): SinkRow { SinkRow(out.content.runId, out.content.resultId, Payload(out)) }

  /** After the cutoff: one MERGE, and what the table then holds decides. A MERGE that
      failed is still under way, and only a verifier can tell. Nothing is merged when the
      sink refuses. */
  predicate PublicationEnds(c: Config, sh: Shared, t: Shared, w: Worker, out: Outcome, o: Oracle) {
    if o.env(Publish).refused then t == sh.(row := t.row) && GoesUnverified(c, sh.row, t.row, o.at(RetryLater))
    else if o.env(Publish).mergeOk then
      t.table == Stored(sh.table, out) && t.inflight == sh.inflight &&
      if !o.env(ReadBack).readFails && Matching(t.table, out.content.resultId) == [OwnRow(out)]
      then EndsCompleted(sh.row, t.row, out, o.at(Complete))
      else if w.verifier then EndsAsFound(c, sh.row, t.row, t.table, out, o)
      else GoesUnverified(c, sh.row, t.row, o.at(RetryLater))
    else
      t.table == sh.table && t.inflight == sh.inflight + {OwnRow(out)} &&
      if w.verifier then EndsAsFound(c, sh.row, t.row, sh.table, out, o)
      else GoesUnverified(c, sh.row, t.row, o.at(RetryLater))
  }

  lemma MergeStores(table: seq<SinkRow>, out: Outcome)
    ensures Merge(table, OwnRow(out)) == Stored(table, out)
  {
    assert forall x :: x in Matching(table, out.content.resultId) <==>
                       x in table && x.resultId == out.content.resultId;
    if Matching(table, out.content.resultId) != [] {
      assert Matching(table, out.content.resultId)[0] in table;
    }
  }

  /** Only a verifier settles what is not known. */
  lemma Settling(c: Config, sh: Shared, w: Worker, out: Outcome, o: Oracle)
    requires Ready(c, sh, w, out, o) && w.pc == Reconcile(w) && NamesItsResult(out)
    requires sh.row.pending && w.verifications == sh.row.verifications
    ensures var t := Drive(c, sh, w, o);
            t == sh.(row := t.row) &&
            if w.verifier then EndsAsFound(c, sh.row, t.row, sh.table, out, o)
            else GoesUnverified(c, sh.row, t.row, o.at(RetryLater))
  {
    if w.verifier {
      Reconciling(c, sh, w, out, o);
    } else {
      Retrying(c, sh, w, out, o);
    }
  }

  lemma PublishingMerged(c: Config, sh: Shared, w: Worker, out: Outcome, o: Oracle)
    requires Ready(c, sh, w, out, o) && w.pc.ReadBack? && NamesItsResult(out)
    requires sh.row.pending && w.verifications == sh.row.verifications
    ensures var t := Drive(c, sh, w, o);
            t == sh.(row := t.row) &&
            if !o.env(ReadBack).readFails && Matching(sh.table, out.content.resultId) == [OwnRow(out)]
            then EndsCompleted(sh.row, t.row, out, o.at(Complete))
            else if w.verifier then EndsAsFound(c, sh.row, t.row, sh.table, out, o)
            else GoesUnverified(c, sh.row, t.row, o.at(RetryLater))
  {
    ReadBackStep(c, sh, w, out, Payload(out), o);
    FoundAlone(sh.table, OwnRow(out));
    if !o.env(ReadBack).readFails && Matching(sh.table, out.content.resultId) == [OwnRow(out)] {
      Completing(c, sh, w.(pc := Complete), out, o);
    } else {
      Settling(c, sh, w.(pc := Reconcile(w)), out, o);
    }
  }

  lemma Publishing(c: Config, sh: Shared, w: Worker, out: Outcome, o: Oracle)
    requires Ready(c, sh, w, out, o) && w.pc.Publish? && NamesItsResult(out)
    requires sh.row.pending && w.verifications == sh.row.verifications
    ensures PublicationEnds(c, sh, Drive(c, sh, w, o), w, out, o)
  {
    PublishStep(c, sh, w, out, Payload(out), o);
    if o.env(Publish).refused {
      Retrying(c, sh, w.(pc := RetryLater), out, o);
    } else if o.env(Publish).mergeOk {
      MergeStores(sh.table, out);
      PublishingMerged(c, sh.(table := Stored(sh.table, out)), w.(pc := ReadBack), out, o);
    } else {
      Settling(c, sh.(inflight := sh.inflight + {OwnRow(out)}), w.(pc := Reconcile(w)), out, o);
    }
  }

  /** The circumstances survive the statements that extend the lease or mark the cutoff. */
  lemma StillReady(c: Config, sh: Shared, sh': Shared, w: Worker, w': Worker, out: Outcome, o: Oracle, p: Pc)
    requires Ready(c, sh, w, out, o)
    requires w' == w.(pc := w'.pc, pending := w'.pending)
    requires sh'.row.workerId == sh.row.workerId && sh'.row.token == sh.row.token && sh'.row.status == sh.row.status
    requires sh'.row.expires == sh.row.expires || sh'.row.expires == Some(o.at(p) + c.lease)
    ensures Ready(c, sh', w', out, o)
  {
  }

  lemma Marking(c: Config, sh: Shared, w: Worker, out: Outcome, o: Oracle)
    requires Ready(c, sh, w, out, o) && w.pc.MarkPending? && NamesItsResult(out)
    requires !sh.row.pending && !sh.row.cancelRequested && w.verifications == sh.row.verifications
    ensures PublicationEnds(c, sh, Drive(c, sh, w, o), w, out, o)
  {
    MarkPendingStep(c, sh, w, out, Payload(out), o);
    assert o.env(MarkPending).fault.NoFault?;
    var marked := sh.(row := sh.row.(pending := true, retryAt := None));
    var w' := w.(pending := true, pc := Publish);
    StillReady(c, sh, marked, w, w', out, o, MarkPending);
    Publishing(c, marked, w', out, o);
  }

  function Beaten(c: Config, sh: Shared, now: Time): Shared {
    sh.(row := sh.row.(expires := Some(now + c.lease)))
  }

  lemma FencePasses(c: Config, sh: Shared, w: Worker, out: Outcome, o: Oracle)
    requires Ready(c, sh, w, out, o) && w.pc.Fence?
    ensures var w' := w.(pc := if sh.row.cancelRequested then MarkCancel else MarkPending);
            var sh' := Beaten(c, sh, o.at(Fence));
            Drive(c, sh, w, o) == Drive(c, sh', w', o) && Ready(c, sh', w', out, o)
  {
    FenceStep(c, sh, w, out, Payload(out), o);
    assert o.env(Fence).fault.NoFault?;
    StillReady(c, sh, Beaten(c, sh, o.at(Fence)), w, w.(pc := MarkPending), out, o, Fence);
  }

  /** The fence: a request to cancel wins here, or the publication takes place. */
  lemma Fencing(c: Config, sh: Shared, w: Worker, out: Outcome, o: Oracle)
    requires Ready(c, sh, w, out, o) && w.pc.Fence? && NamesItsResult(out)
    requires !sh.row.pending && w.verifications == sh.row.verifications
    ensures var t := Drive(c, sh, w, o);
            if sh.row.cancelRequested then
              t == sh.(row := t.row) && EndsCanceled(sh.row, t.row, o.at(MarkCancel))
            else PublicationEnds(c, sh, t, w, out, o)
  {
    FencePasses(c, sh, w, out, o);
    if sh.row.cancelRequested {
      Canceling(c, Beaten(c, sh, o.at(Fence)), w.(pc := MarkCancel), o);
    } else {
      Marking(c, Beaten(c, sh, o.at(Fence)), w.(pc := MarkPending), out, o);
    }
  }

  // ---- from a staged result on ----

  /** A placeholder completes without a sink; without a publisher or a reference nothing
      can be published; a pending run is only reconciled; any other is published, unless
      its cancellation was requested. */
  predicate StagedEnds(c: Config, sh: Shared, t: Shared, w: Worker, out: Outcome, o: Oracle) {
    var r, ref := sh.row, out.content.ref;
    if ref.Some? && ref.value.placeholder then
      t == sh.(row := t.row) && EndsCompleted(r, t.row, out, o.at(Complete))
    else if !w.publisher || ref.None? then
      t == sh.(row := t.row) &&
      if r.pending then GoesUnverified(c, r, t.row, o.at(RetryLater))
      else if r.cancelRequested then t.row == r
      else EndsFailed(r, t.row, "result_store_unavailable", true, o.at(FailUnavailable))
           && t.row.response == Some(Payload(out))
    else if r.pending then
      t == sh.(row := t.row) &&
      if w.verifier then EndsAsFound(c, r, t.row, sh.table, out, o)
      else GoesUnverified(c, r, t.row, o.at(RetryLater))
    else if r.cancelRequested then
      t == sh.(row := t.row) && EndsCanceled(r, t.row, o.at(MarkCancel))
    else PublicationEnds(c, sh, t, w, out, o)
  }

  lemma TooLateToFail(c: Config, sh: Shared, w: Worker, out: Outcome, o: Oracle)
    requires w.execution == Returned(out) && sh.row.cancelRequested
    requires w.pc.FailMalfunction? || (w.pc.FailUnavailable? && w.payload.Some?)
    ensures Drive(c, sh, w, o) == sh
  {
  }

  lemma Routing(c: Config, sh: Shared, w: Worker, out: Outcome, o: Oracle)
    requires Ready(c, sh, w, out, o) && w.pc == Route(w, out) && (out.content.ref.Some? ==> NamesItsResult(out))
    requires w.pending == sh.row.pending && w.verifications == sh.row.verifications
    ensures StagedEnds(c, sh, Drive(c, sh, w, o), w, out, o)
  {
    match w.pc {
      case Complete => Completing(c, sh, w, out, o);
      case FailUnavailable =>
        if sh.row.cancelRequested {
          TooLateToFail(c, sh, w, out, o);
        } else {
          FailingUnavailable(c, sh, w, out, o);
        }
      case Fence => Fencing(c, sh, w, out, o);
      case Verify => Reconciling(c, sh, w, out, o);
      case RetryLater => Retrying(c, sh, w, out, o);
    }
  }

  /** The row with the outcome staged. */
  function WithStaged(sh: Shared, out: Outcome): Shared {
    sh.(row := sh.row.(response := Some(Payload(out)), payload := Some(Payload(out))))
  }

  lemma ProbingCanceled(c: Config, sh: Shared, w: Worker, out: Outcome, o: Oracle)
    requires Ready(c, sh, w, out, o) && w.pc.Probe? && sh.row.cancelRequested && !sh.row.pending
    ensures var t := Drive(c, sh, w, o);
            t == sh.(row := t.row) && EndsCanceled(sh.row, t.row, o.at(MarkCancel))
  {
    ProbeStep(c, sh, w, out, Payload(out), o);
    assert o.env(Probe).fault.NoFault?;
    var beaten := Beaten(c, sh, o.at(Probe));
    StillReady(c, sh, beaten, w, w.(pc := MarkCancel), out, o, Probe);
    Canceling(c, beaten, w.(pc := MarkCancel), o);
  }

  lemma Staging(c: Config, sh: Shared, w: Worker, out: Outcome, o: Oracle)
    requires Ready(c, sh, w, out, o) && w.pc.Stage? && (out.content.ref.Some? ==> NamesItsResult(out))
    requires !sh.row.pending && !w.pending && sh.row.response.None? && w.verifications == sh.row.verifications
    ensures var t := Drive(c, sh, w, o);
            if sh.row.cancelRequested then
              t == sh.(row := t.row) && EndsCanceled(sh.row, t.row, o.at(MarkCancel))
            else StagedEnds(c, WithStaged(sh, out), t, w, out, o)
  {
    StageStep(c, sh, w, out, Payload(out), o);
    assert o.env(Stage).fault.NoFault?;
    if sh.row.cancelRequested {
      ProbingCanceled(c, sh, w.(pc := Probe), out, o);
    } else {
      Routing(c, WithStaged(sh, out), w.(pc := Route(w, out)), out, o);
    }
  }

  // ---- the whole call ----

  /** A request to cancel that the heartbeat has seen wins unless publication is pending; a
      worker that lost its lease or is stopped writes nothing; a staged result is taken up
      where it was left; otherwise the executor's answer decides. */
  predicate CallEnds(c: Config, sh: Shared, t: Shared, w: Worker, o: Oracle) {
    var r := sh.row;
    if w.cancelSeen && !w.pending then t == sh.(row := t.row) && EndsCanceled(r, t.row, o.at(MarkCancel))
    else if w.leaseLost || o.env(Decide).stop then t == sh
    else if w.staged.Some? then StagedEnds(c, sh, t, w, w.staged.value.decoded, o)
    else match o.env(Executing).execution
      case Returned(out) =>
        if out.content.terminalState == "malfunction" then
          if r.cancelRequested then t == sh
          else t == sh.(row := t.row) && t.row.response == Some(Payload(out)) &&
               EndsFailed(r, t.row, "defense_validation_malfunction", false, o.at(FailMalfunction))
        else if o.env(Decide).encodeFails || !IsSealed(out) then t == sh
        else if r.cancelRequested then t == sh.(row := t.row) && EndsCanceled(r, t.row, o.at(MarkCancel))
        else StagedEnds(c, WithStaged(sh, out), t, w, out, o)
      case _ => t == sh.(row := t.row) && EndsFailed(r, t.row, "execution_failed", false, o.at(FailRun))
  }

  /** Outcomes refer to the result table under their own result id, if to anything. */
  predicate RefersToItself(w: Worker, o: Oracle) {
    (w.staged.Some? && w.staged.value.decoded.content.ref.Some? ==> NamesItsResult(w.staged.value.decoded)) &&
    (o.env(Executing).execution.Returned? && o.env(Executing).execution.out.content.ref.Some? ==>
       NamesItsResult(o.env(Executing).execution.out))
  }

  /** The worker as it leaves the executor, or the recovery of a staged result. */
  function Decided(w: Worker, o: Oracle): Worker {
    if w.staged.Some? then w.(execution := Returned(w.staged.value.decoded), payload := w.staged, pc := Decide)
    else w.(execution := if o.env(Executing).execution.Returned? then o.env(Executing).execution else Broken,
            pc := Decide)
  }

  lemma Starting(c: Config, sh: Shared, w: Worker, o: Oracle)
    requires w.pc.Start?
    ensures Drive(c, sh, w, o) == Drive(c, sh, Decided(w, o), o)
  {
    if w.staged.None? {
      assert Drive(c, sh, w, o) == Drive(c, sh, w.(pc := Executing), o);
    }
  }

  lemma Reporting(c: Config, sh: Shared, w: Worker, out: Outcome, o: Oracle)
    requires Calm(c, o) && Live(sh.row, w, o) && w.pc.FailMalfunction? && w.execution == Returned(out)
    requires !sh.row.pending
    ensures var t := Drive(c, sh, w, o);
            if sh.row.cancelRequested then t == sh
            else t == sh.(row := t.row) && t.row.response == Some(Payload(out)) &&
                 EndsFailed(sh.row, t.row, "defense_validation_malfunction", false, o.at(FailMalfunction))
  {
    if sh.row.cancelRequested {
      TooLateToFail(c, sh, w, out, o);
    } else {
      FailingMalfunction(c, sh, w, out, o);
    }
  }

  lemma DecidingSealed(c: Config, sh: Shared, w: Worker, out: Outcome, o: Oracle)
    requires Calm(c, o) && Live(sh.row, w, o) && w.pc.Decide? && w.execution == Returned(out) && w.staged.None?
    requires !w.cancelSeen && !w.leaseLost && !w.pending && w.verifications == sh.row.verifications
    requires !sh.row.pending && sh.row.response.None? && !o.env(Decide).stop && !o.env(Decide).encodeFails
    requires IsSealed(out) && out.content.terminalState != "malfunction"
    requires out.content.ref.Some? ==> NamesItsResult(out)
    ensures var t := Drive(c, sh, w, o);
            if sh.row.cancelRequested then t == sh.(row := t.row) && EndsCanceled(sh.row, t.row, o.at(MarkCancel))
            else StagedEnds(c, WithStaged(sh, out), t, w, out, o)
  {
    DecideStep(c, sh, w, o);
    Staging(c, sh, w.(payload := Some(Payload(out)), pc := Stage), out, o);
  }

  /** Where the decision after the executor leads, without a staged result. */
  lemma DecidingFresh(c: Config, sh: Shared, w: Worker, o: Oracle)
    requires Calm(c, o) && Live(sh.row, w, o) && Snapshot(sh.row, w) && RefersToItself(w, o)
    requires w.staged.None? && !w.cancelSeen && o.env(Executing).execution.Returned?
    ensures CallEnds(c, sh, Drive(c, sh, Decided(w, o), o), w, o)
  {
    var d := Decided(w, o);
    DecideStep(c, sh, d, o);
    if w.leaseLost || o.env(Decide).stop {
    } else if d.execution.out.content.terminalState == "malfunction" {
      Reporting(c, sh, d.(pc := FailMalfunction), d.execution.out, o);
    } else if !o.env(Decide).encodeFails && IsSealed(d.execution.out) {
      DecidingSealed(c, sh, d, d.execution.out, o);
    }
  }

  lemma DecidingBroken(c: Config, sh: Shared, w: Worker, o: Oracle)
    requires Calm(c, o) && Live(sh.row, w, o) && Snapshot(sh.row, w)
    requires w.staged.None? && !w.cancelSeen && !o.env(Executing).execution.Returned?
    ensures CallEnds(c, sh, Drive(c, sh, Decided(w, o), o), w, o)
  {
    var d := Decided(w, o);
    DecideStep(c, sh, d, o);
    if !w.leaseLost && !o.env(Decide).stop {
      FailingRun(c, sh, d.(pc := FailRun), o);
    }
  }

  lemma DecidingStaged(c: Config, sh: Shared, w: Worker, o: Oracle)
    requires Calm(c, o) && Live(sh.row, w, o) && Snapshot(sh.row, w) && RefersToItself(w, o)
    requires w.staged.Some? && (w.cancelSeen ==> w.pending)
    ensures CallEnds(c, sh, Drive(c, sh, Decided(w, o), o), w, o)
  {
    var d, out := Decided(w, o), w.staged.value.decoded;
    DecideStep(c, sh, d, o);
    if !w.leaseLost && !o.env(Decide).stop {
      Routing(c, sh, d.(pc := Route(d, out)), out, o);
    }
  }

  /** What a call of executeOne does, in the columns of the row and the rows of the table. */
  lemma CallEndsAsStated(c: Config, sh: Shared, w: Worker, o: Oracle)
    requires Calm(c, o) && Live(sh.row, w, o) && Snapshot(sh.row, w) && RefersToItself(w, o)
    ensures CallEnds(c, sh, Drive(c, sh, w, o), w, o)
  {
    Starting(c, sh, w, o);
    var d := Decided(w, o);
    if w.cancelSeen && !w.pending {
      DecideStep(c, sh, d, o);
      Canceling(c, sh, d.(pc := MarkCancel), o);
    } else if w.staged.Some? {
      DecidingStaged(c, sh, w, o);
    } else if o.env(Executing).execution.Returned? {
      DecidingFresh(c, sh, w, o);
    } else {
      DecidingBroken(c, sh, w, o);
    }
  }

  /** A call that starts from what the row holds and is not disturbed. */
  ghost predicate Undisturbed(c: Config, sh: Shared, w: Worker, o: Oracle) {
    Calm(c, o) && Live(sh.row, w, o) && Snapshot(sh.row, w) && RefersToItself(w, o)
  }

  lemma UndisturbedCallEnds(c: Config, sh: Shared, w: Worker, o: Oracle)
    ensures Undisturbed(c, sh, w, o) ==> CallEnds(c, sh, Drive(c, sh, w, o), w, o)
  {
    if Undisturbed(c, sh, w, o) {
      CallEndsAsStated(c, sh, w, o);
    }
  }

  // ---- when the ledger does not answer ----

  /** The statements that go to the ledger. */
  predicate OnLedger(pc: Pc) {
    !pc.Start? && !pc.Executing? && !pc.Decide? && !pc.Publish? && !pc.ReadBack? && !pc.Verify?
  }

  /** A statement on the ledger that is not answered is the last one of its call, and it
      did nothing at all when the request was lost. */
  lemma UnansweredEndsTheCall(c: Config, sh: Shared, w: Worker, now: Time, e: Env)
    requires OnLedger(w.pc) && !e.fault.NoFault?
    ensures var n := Advance(c, sh, w, now, e);
            n.worker.None? && n.shared == sh.(row := n.shared.row) && (e.fault.LostRequest? ==> n.shared == sh)
  {
  }
}
