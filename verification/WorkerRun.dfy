/** executeOne as it is written: one straight-line method over the ledger row and the
    result table, proved to perform exactly the statements of the machine in Worker, one
    after the other, when nothing else runs in between. */
module WorkerRun {
  import opened Wrappers
  import opened Ledger
  import opened ResultSink
  import opened Worker
  import opened Machine
  import CallResults
  import RunStore

  // ---- one statement, with its fault ----

  /** The ledger as a caller reaches it: a request or a reply can be lost on the way. */
  class Store {
    const row: RunStore.LedgerRow

    constructor (row: RunStore.LedgerRow)
      ensures this.row == row
    {
      this.row := row;
    }

    method Heartbeat(w: Worker, now: Time, lease: Time, fault: Fault) returns (beat: Beat)
      modifies row
      ensures (row.View(), beat) == Beating(old(row.View()),
              Ledger.Heartbeat(old(row.View()), w.id, w.token, now, lease), fault)
    {
      beat := BeatError;
      if fault != LostRequest {
        var answer := row.Heartbeat(w.id, w.token, now, lease);
        beat := if fault == LostReply then BeatError else answer;
      }
    }

    method MarkCanceled(w: Worker, now: Time, fault: Fault) returns (reply: Reply)
      modifies row
      ensures Update(row.View(), reply) == Deliver(old(row.View()),
              Ledger.MarkCanceled(old(row.View()), w.id, w.token, now), fault)
    {
      reply := Error;
      if fault != LostRequest {
        var answer := row.MarkCanceled(w.id, w.token, now);
        reply := if fault == LostReply then Error else answer;
      }
    }

    method Fail(w: Worker, f: Failure, now: Time, fault: Fault) returns (reply: Reply)
      modifies row
      ensures Update(row.View(), reply) == Deliver(old(row.View()),
              Ledger.Fail(old(row.View()), w.id, w.token, f, now), fault)
    {
      reply := Error;
      if fault != LostRequest {
        var answer := row.Fail(w.id, w.token, f, now);
        reply := if fault == LostReply then Error else answer;
      }
    }

    method FailOutcome(w: Worker, out: Outcome, f: Failure, now: Time, fault: Fault) returns (reply: Reply)
      modifies row
      ensures Update(row.View(), reply) == Deliver(old(row.View()),
              Ledger.FailOutcome(old(row.View()), w.id, w.token, out, f, now), fault)
    {
      reply := Error;
      if fault != LostRequest {
        var answer := row.FailOutcome(w.id, w.token, out, f, now);
        reply := if fault == LostReply then Error else answer;
      }
    }

    method StageOutcome(w: Worker, out: Outcome, p: Payload, now: Time, fault: Fault) returns (reply: Reply)
      modifies row
      ensures Update(row.View(), reply) == Deliver(old(row.View()),
              Ledger.StageOutcome(old(row.View()), w.id, w.token, out, p, now), fault)
    {
      reply := Error;
      if fault != LostRequest {
        var answer := row.StageOutcome(w.id, w.token, out, p, now);
        reply := if fault == LostReply then Error else answer;
      }
    }

    method MarkPublicationPending(w: Worker, now: Time, fault: Fault) returns (reply: Reply)
      modifies row
      ensures Update(row.View(), reply) == Deliver(old(row.View()),
              Ledger.MarkPublicationPending(old(row.View()), w.id, w.token, now), fault)
    {
      reply := Error;
      if fault != LostRequest {
        var answer := row.MarkPublicationPending(w.id, w.token, now);
        reply := if fault == LostReply then Error else answer;
      }
    }

    method CompletePublished(w: Worker, out: Outcome, p: Payload, now: Time, fault: Fault) returns (reply: Reply)
      modifies row
      ensures Update(row.View(), reply) == Deliver(old(row.View()),
              Ledger.CompletePublished(old(row.View()), w.id, w.token, out, p, now), fault)
    {
      reply := Error;
      if fault != LostRequest {
        var answer := row.CompletePublished(w.id, w.token, out, p, now);
        reply := if fault == LostReply then Error else answer;
      }
    }

    method FailPublicationConflict(w: Worker, f: Failure, now: Time, fault: Fault) returns (reply: Reply)
      modifies row
      ensures Update(row.View(), reply) == Deliver(old(row.View()),
              Ledger.FailPublicationConflict(old(row.View()), w.id, w.token, f, now), fault)
    {
      reply := Error;
      if fault != LostRequest {
        var answer := row.FailPublicationConflict(w.id, w.token, f, now);
        reply := if fault == LostReply then Error else answer;
      }
    }

    method RetryVerification(w: Worker, maxVerifications: int, delay: Time, f: Failure, now: Time, fault: Fault)
      returns (reply: Reply)
      modifies row
      ensures Update(row.View(), reply)
              == Deliver(old(row.View()), Ledger.RetryVerification(old(row.View()), w.id, w.token, maxVerifications,
                  delay, f, now), fault)
    {
      reply := Error;
      if fault != LostRequest {
        var answer := row.RetryVerification(w.id, w.token, maxVerifications, delay, f, now);
        reply := if fault == LostReply then Error else answer;
      }
    }
  }

  // ---- executeOne ----

  class RunWorker {
    const config: Config
    const store: Store
    const table: ResultTable
    const oracle: Oracle
    var inflight: set<SinkRow>      // MERGE statements that failed here and may still land

    constructor (config: Config, store: Store, table: ResultTable, oracle: Oracle)
      ensures this.config == config && this.store == store && this.table == table && this.oracle == oracle &&
              inflight == {}
    {
      this.config, this.store, this.table, this.oracle, inflight := config, store, table, oracle, {};
    }

    function Here(): Shared
      reads this, store.row, table
    {
      Shared(store.row.View(), table.rows, inflight)
    }

    lemma ReconcileEnds(w: Worker, out: Outcome, p: Payload)
      requires Carries(w, out, p)
      ensures CallResults.Ready(config, Here(), w, out, oracle) && CallResults.NamesItsResult(out)
              && Here().row.pending && w.verifications == Here().row.verifications
              ==> CallResults.EndsAsFound(config, Here().row,
                    Drive(config, Here(), w.(pc := Verify), oracle).row, table.rows, out, oracle)
    {
      if CallResults.Ready(config, Here(), w, out, oracle) && CallResults.NamesItsResult(out)
         && Here().row.pending && w.verifications == Here().row.verifications {
        CallResults.Reconciling(config, Here(), w.(pc := Verify), out, oracle);
      }
    }

    /** retryVerification. */
    method Retry(w: Worker, out: Outcome, p: Payload)
      requires Carries(w, out, p)
      modifies store.row
      ensures Here() == Drive(config, old(Here()), w.(pc := RetryLater), oracle)
    {
      var delay := ComputeVerificationDelay(config.backoff, w.verifications);
      var reply := store.RetryVerification(w, config.maxVerifications, delay, UNVERIFIED, oracle.at(RetryLater),
          oracle.env(RetryLater).fault);
    }

    method CompleteRun(w: Worker, out: Outcome, p: Payload)
      requires Carries(w, out, p)
      modifies store.row
      ensures Here() == Drive(config, old(Here()), w.(pc := Complete), oracle)
    {
      var reply := store.CompletePublished(w, out, p, oracle.at(Complete), oracle.env(Complete).fault);
    }

    method CancelRun(w: Worker)
      modifies store.row
      ensures Here() == Drive(config, old(Here()), w.(pc := MarkCancel), oracle)
    {
      var reply := store.MarkCanceled(w, oracle.at(MarkCancel), oracle.env(MarkCancel).fault);
    }

    method FailConflicting(w: Worker, out: Outcome, p: Payload)
      requires Carries(w, out, p)
      modifies store.row
      ensures Here() == Drive(config, old(Here()), w.(pc := FailConflict), oracle)
    {
      var reply := store.FailPublicationConflict(w, CONFLICTING, oracle.at(FailConflict),
          oracle.env(FailConflict).fault);
    }

    method FailUnpublishable(w: Worker, out: Outcome, p: Payload)
      requires Carries(w, out, p)
      modifies store.row
      ensures Here() == Drive(config, old(Here()), w.(pc := FailUnavailable), oracle)
    {
      var reply := store.FailOutcome(w, out, UNAVAILABLE, oracle.at(FailUnavailable),
          oracle.env(FailUnavailable).fault);
    }

    /** reconcilePublication. When nothing fails, exactly the own row under the result id
        completes the run, no row sends it back to the queue or ends its attempts, and
        anything else is a conflict. */
    method ReconcilePublication(w: Worker, out: Outcome, p: Payload)
      requires Carries(w, out, p) && out.content.ref.Some?
      modifies store.row
      ensures Here() == Drive(config, old(Here()), w.(pc := Verify), oracle)
      ensures var r := old(store.row.View());
              CallResults.Ready(config, old(Here()), w, out, oracle) && CallResults.NamesItsResult(out)
              && r.pending && w.verifications == r.verifications
              ==> CallResults.EndsAsFound(config, r, store.row.View(), table.rows, out, oracle)
    {
      ReconcileEnds(w, out, p);
      VerifyStep(config, Here(), w.(pc := Verify), out, p, oracle);
      var e := oracle.env(Verify);
      var found := table.Verify(out, p, !e.refused, e.readFails);
      if found == Published {
        CompleteRun(w, out, p);
      } else if found == Ambiguous(Some(Conflict)) {
        FailConflicting(w, out, p);
      } else {
        Retry(w, out, p);
      }
    }

    /** After an ambiguous publication, and in recovery: only a verifier can settle it. */
    method Settle(w: Worker, out: Outcome, p: Payload)
      requires Carries(w, out, p) && out.content.ref.Some?
      modifies store.row
      ensures Here() == Drive(config, old(Here()), w.(pc := Reconcile(w)), oracle)
    {
      if w.verifier {
        ReconcilePublication(w, out, p);
      } else {
        Retry(w, out, p);
      }
    }

    /** publisher.Publish and what executeOne makes of its result. */
    method PublishOnce(w: Worker, out: Outcome, p: Payload)
      requires Carries(w, out, p) && out.content.ref.Some?
      modifies store.row, table, `inflight
      ensures Here() == Drive(config, old(Here()), w.(pc := Publish), oracle)
    {
      var e := oracle.env(Publish);
      PublishStep(config, Here(), w.(pc := Publish), out, p, oracle);
      ReadBackStep(config, Here().(table := Merge(table.rows, RowFor(out, p))), w.(pc := ReadBack), out, p, oracle);
      var res := table.Publish(out, p, true, !e.refused, e.mergeOk, oracle.env(ReadBack).readFails);
      match res {
        case Published => CompleteRun(w, out, p);
        case Rejected => Retry(w, out, p);
        case Ambiguous(_) =>
          if !e.mergeOk {
            inflight := inflight + {RowFor(out, p)};
          }
          Settle(w, out, p);
      }
    }

    /** The cancellation fence and the cutoff, then the one publication. */
    method FenceAndPublish(w: Worker, out: Outcome, p: Payload)
      requires Carries(w, out, p) && out.content.ref.Some?
      modifies store.row, table, `inflight
      ensures Here() == Drive(config, old(Here()), w.(pc := Fence), oracle)
    {
      FenceStep(config, Here(), w.(pc := Fence), out, p, oracle);
      var beat := store.Heartbeat(w, oracle.at(Fence), config.lease, oracle.env(Fence).fault);
      if !beat.Owned? {
        return;
      }
      if beat.requested {
        CancelRun(w);
        return;
      }
      MarkPendingStep(config, Here(), w.(pc := MarkPending), out, p, oracle);
      var marked := store.MarkPublicationPending(w, oracle.at(MarkPending), oracle.env(MarkPending).fault);
      if marked.Wrote? {
        PublishOnce(w.(pending := true), out, p);
      }
    }

    /** From a staged result to the end. */
    method PublishStaged(w: Worker, out: Outcome, p: Payload)
      requires Carries(w, out, p)
      modifies store.row, table, `inflight
      ensures Here() == Drive(config, old(Here()), w.(pc := Route(w, out)), oracle)
    {
      if Placeholder(out) {
        CompleteRun(w, out, p);
      } else if !w.publisher || out.content.ref.None? {
        if w.pending {
          Retry(w, out, p);
        } else {
          FailUnpublishable(w, out, p);
        }
      } else if w.pending {
        Settle(w, out, p);
      } else {
        FenceAndPublish(w, out, p);
      }
    }

    /** StageOutcome and its two ways of failing. */
    method StageAndPublish(w: Worker, out: Outcome, p: Payload)
      requires Carries(w, out, p)
      modifies store.row, table, `inflight
      ensures Here() == Drive(config, old(Here()), w.(pc := Stage), oracle)
    {
      StageStep(config, Here(), w.(pc := Stage), out, p, oracle);
      var staged := store.StageOutcome(w, out, p, oracle.at(Stage), oracle.env(Stage).fault);
      match staged {
        case Wrote => PublishStaged(w, out, p);
        case Error =>
        case Unmatched =>
          ProbeStep(config, Here(), w.(pc := Probe), out, p, oracle);
          var beat := store.Heartbeat(w, oracle.at(Probe), config.lease, oracle.env(Probe).fault);
          if beat == Owned(true) {
            CancelRun(w);
          }
      }
    }

    method FailExecution(w: Worker)
      modifies store.row
      ensures Here() == Drive(config, old(Here()), w.(pc := FailRun), oracle)
    {
      var reply := store.Fail(w, EXECUTION_FAILED, oracle.at(FailRun), oracle.env(FailRun).fault);
    }

    method FailReported(w: Worker, out: Outcome)
      requires w.execution == Returned(out)
      modifies store.row
      ensures Here() == Drive(config, old(Here()), w.(pc := FailMalfunction), oracle)
    {
      var reply := store.FailOutcome(w, out, REPORTED_MALFUNCTION, oracle.at(FailMalfunction),
          oracle.env(FailMalfunction).fault);
    }

    /** From the executor's return on. A recovered result carries its staged bytes. */
    method Finish(w: Worker)
      requires w.staged.Some? ==> w.execution.Returned? && w.payload == w.staged
      modifies store.row, table, `inflight
      ensures Here() == Drive(config, old(Here()), w.(pc := Decide), oracle)
    {
      DecideStep(config, Here(), w.(pc := Decide), oracle);
      var e := oracle.env(Decide);
      if w.cancelSeen && !w.pending {
        CancelRun(w);
        return;
      }
      if w.leaseLost || e.stop {
        return;
      }
      if !w.execution.Returned? {
        FailExecution(w);
        return;
      }
      var out := w.execution.out;
      if out.content.terminalState == MALFUNCTION {
        FailReported(w, out);
        return;
      }
      if w.staged.Some? {
        PublishStaged(w, out, w.staged.value);
        return;
      }
      var p := CanonicalPayload(out);
      if e.encodeFails || p.None? {
        return;
      }
      StageAndPublish(w.(payload := p), out, p.value);
    }

    /** executeOne: it does to the row and the table what the machine started on the same
        lease does, and so everything proved of the machine is proved of this code. The
        heartbeat goroutine appears as the two flags it sets. */
    method ExecuteOne(w: Worker)
      requires w.pc.Start?
      modifies store.row, table, `inflight
      ensures Here() == Drive(config, old(Here()), w, oracle)
      ensures CallResults.Undisturbed(config, old(Here()), w, oracle)
              ==> CallResults.CallEnds(config, old(Here()), Here(), w, oracle)
    {
      CallResults.UndisturbedCallEnds(config, Here(), w, oracle);
      if w.staged.Some? {
        Finish(w.(execution := Returned(w.staged.value.decoded), payload := w.staged));
      } else {
        var result := oracle.env(Executing).execution;
        Finish(w.(execution := if result.Returned? then result else Broken));
      }
    }

    /** One turn of the worker loop: the two sweeps, then at most one leased run. An error
        of a sweep is logged and ignored, whether or not the sweep ran; an error of the
        lease leaves the run to its expiry, even where the lease was granted. */
    method Turn(id: WorkerId, token: Token, publisher: bool, verifier: bool, r: Round) returns (leased: bool)
      modifies store.row, table, `inflight
      ensures var swept := Swept(config, old(store.row.View()), r);
              var u := Ledger.LeaseNext(swept, id, token, r.leaseAt, config.lease, config.maxAttempts);
              leased == (u.reply.Wrote? && r.lease.NoFault?) &&
              Here() == if leased
                        then Drive(config, Shared(u.row, old(table.rows), old(inflight)),
                                   Leased(u.row, id, token, publisher, verifier), oracle)
                        else Shared(if r.lease.LostRequest? then swept else u.row, old(table.rows), old(inflight))
    {
      if !r.recoverLost {
        store.row.RecoverCanceled(r.recoverAt);
      }
      if !r.sweepLost {
        store.row.FailExhausted(r.sweepAt, config.maxAttempts);
      }
      if r.lease.LostRequest? {
        return false;
      }
      var reply := store.row.LeaseNext(id, token, r.leaseAt, config.lease, config.maxAttempts);
      leased := reply.Wrote? && r.lease.NoFault?;
      if leased {
        ExecuteOne(Leased(store.row.View(), id, token, publisher, verifier));
      }
    }
  }

  /** What the clock reads at the three statements of a turn, and which of them are lost. */
  datatype Round = Round(recoverAt: Time, recoverLost: bool, sweepAt: Time, sweepLost: bool, leaseAt: Time,
      lease: Fault)

  /** The row after both sweeps. */
  function Swept(c: Config, row: Row, r: Round): Row {
    var recovered := if r.recoverLost then row else RecoverCanceled(row, r.recoverAt);
    if r.sweepLost then recovered else FailExhausted(recovered, r.sweepAt, c.maxAttempts)
  }
}
