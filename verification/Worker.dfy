/** executeOne: one worker carrying one leased run through execution, staging,
    publication and completion.

    The method is cut at every statement that touches shared state (the ledger
    row or the result table) and where it reads the flags its heartbeat goroutine
    sets. `Pc` names the statement the worker is about to perform; everything
    between two statements is local and happens with the earlier one. */
module Worker {
  import opened Wrappers
  import opened Ledger
  import opened ResultSink

  datatype Config = Config(maxAttempts: int, maxVerifications: int, lease: Time, backoff: Time)

  const FIVE_MINUTES: Time := 300_000_000_000

  function Pow2(n: nat): (p: nat)
    ensures p >= 1
  {
    if n == 0 then 1 else 2 * Pow2(n - 1)
  }

  /** Exponential backoff capped at five minutes; a backoff configured above the
      cap is used as it is. */
  function VerificationDelay(backoff: Time, attempt: nat): Time {
    var grown := backoff * Pow2(attempt);
    if backoff > FIVE_MINUTES then backoff else if grown > FIVE_MINUTES then FIVE_MINUTES else grown
  }

  /** The loop of verificationDelay. */
  method ComputeVerificationDelay(backoff: Time, attempt: nat) returns (delay: Time)
    ensures delay == VerificationDelay(backoff, attempt)
  {
    delay := backoff;
    var i := 0;
    while i < attempt && delay < FIVE_MINUTES
      invariant 0 <= i <= attempt
      invariant delay == if backoff > FIVE_MINUTES then backoff else backoff * Pow2(i)
      invariant backoff <= FIVE_MINUTES ==> delay <= FIVE_MINUTES
    {
      assert backoff * Pow2(i + 1) == 2 * (backoff * Pow2(i));
      delay := delay * 2;
      if delay > FIVE_MINUTES {
        GrowthIsMonotone(backoff, i + 1, attempt);
        return FIVE_MINUTES;
      }
      i := i + 1;
    }
    if i < attempt && backoff <= FIVE_MINUTES {
      GrowthIsMonotone(backoff, i, attempt);
    }
  }

  lemma {:induction false} GrowthIsMonotone(backoff: Time, i: nat, n: nat)
    requires i <= n && backoff > 0
    ensures backoff * Pow2(i) <= backoff * Pow2(n)
    ensures i < n ==> 2 * (backoff * Pow2(i)) <= backoff * Pow2(n)
    decreases n - i
  {
    if i < n {
      assert backoff * Pow2(i + 1) == 2 * (backoff * Pow2(i));
      GrowthIsMonotone(backoff, i + 1, n);
    }
  }

  // ---- the worker's local state ----

  /** What a failed statement did: a lost request never ran, a lost reply ran and
      committed although the caller saw an error. */
  datatype Fault = NoFault | LostRequest | LostReply

  /** The executor returned an outcome, or it returned an error or panicked. */
  datatype Execution = NotRun | Returned(out: Outcome) | Broken

  datatype Pc = Start | Executing | Decide | MarkCancel | FailRun | FailMalfunction | Stage | Probe
              | FailUnavailable | Fence | MarkPending | Publish | ReadBack | Verify | RetryLater
              | FailConflict | Complete

  /** `staged` and `pending` are the snapshot of the row taken by the lease;
      `pending` is also set by this worker's own cutoff. */
  datatype Worker = Worker(
    pc: Pc, id: WorkerId, token: Token,
    staged: Option<Payload>, pending: bool, verifications: nat,
    publisher: bool, verifier: bool,      // w.publisher != nil; it implements ResultVerifier
    execution: Execution, payload: Option<Payload>,
    cancelSeen: bool, leaseLost: bool)    // flags set by the heartbeat goroutine

  datatype Shared = Shared(row: Row, table: seq<SinkRow>, inflight: set<SinkRow>)

  /** Everything outside the worker's control in one step. */
  datatype Env = Env(fault: Fault, execution: Execution, stop: bool, encodeFails: bool,
                     refused: bool, mergeOk: bool, readFails: bool)

  datatype Next = Next(shared: Shared, worker: Option<Worker>)

  function Goto(sh: Shared, w: Worker, pc: Pc): Next { Next(sh, Some(w.(pc := pc))) }
  function Exit(sh: Shared): Next { Next(sh, None) }

  function Deliver(r: Row, u: Update, f: Fault): Update {
    match f
    case NoFault => u
    case LostRequest => Update(r, Error)
    case LostReply => Update(u.row, Error)
  }

  function Beating(r: Row, hb: (Row, Beat), f: Fault): (Row, Beat) {
    match f
    case NoFault => hb
    case LostRequest => (r, BeatError)
    case LostReply => (hb.0, BeatError)
  }

  /** The snapshot getDurable takes inside LeaseNext's transaction. */
  function Leased(r: Row, w: WorkerId, tok: Token, publisher: bool, verifier: bool): Worker {
    Worker(Start, w, tok, r.payload, r.pending, r.verifications, publisher, verifier, NotRun, None, false, false)
  }

  const UNAVAILABLE := Failure("result_store_unavailable", true)
  const EXECUTION_FAILED := Failure("execution_failed", false)
  const REPORTED_MALFUNCTION := Failure("defense_validation_malfunction", false)
  const UNVERIFIED := Failure("publication_verification_failed", false)
  const CONFLICTING := Failure("result_publication_conflict", false)

  // ---- local decisions ----

  predicate Placeholder(out: Outcome) { out.content.ref.Some? && out.content.ref.value.placeholder }

  /** From a staged result to the first publication statement. */
  function Route(w: Worker, out: Outcome): Pc {
    if Placeholder(out) then Complete
    else if !w.publisher || out.content.ref.None? then (if w.pending then RetryLater else FailUnavailable)
    else if !w.pending then Fence
    else Reconcile(w)
  }

  function Reconcile(w: Worker): Pc { if w.verifier then Verify else RetryLater }

  /** What reconcilePublication makes of a readback. */
  function Reconciled(found: Readback): Pc {
    match found
    case Identical => Complete
    case Absent => RetryLater
    case Conflict => FailConflict
  }

  /** The checks between the executor's return and staging. */
  function DecideNext(sh: Shared, w: Worker, e: Env): Next {
    if w.cancelSeen && !w.pending then Goto(sh, w, MarkCancel)
    else if w.leaseLost || e.stop then Exit(sh)
    else if !w.execution.Returned? then Goto(sh, w, FailRun)
    else
      var out := w.execution.out;
      if out.content.terminalState == MALFUNCTION then Goto(sh, w, FailMalfunction)
      else if w.staged.Some? then Goto(sh, w, Route(w, out))
      else
        var p := CanonicalPayload(out);
        if e.encodeFails || p.None? then Exit(sh)
        else Goto(sh, w.(payload := p), Stage)
  }

  /** executeOne's statements, one per call. */
  function Advance(c: Config, sh: Shared, w: Worker, now: Time, e: Env): Next {
    match w.pc
    case Start =>
      if w.staged.Some? then
        Goto(sh, w.(execution := Returned(w.staged.value.decoded), payload := w.staged), Decide)
      else Goto(sh, w, Executing)
    case Executing => Goto(sh, w.(execution := if e.execution.Returned? then e.execution else Broken), Decide)
    case Decide => DecideNext(sh, w, e)
    case MarkCancel => Exit(sh.(row := Deliver(sh.row, MarkCanceled(sh.row, w.id, w.token, now), e.fault).row))
    case FailRun => Exit(sh.(row := Deliver(sh.row, Fail(sh.row, w.id, w.token, EXECUTION_FAILED, now), e.fault).row))
    case FailMalfunction =>
      if w.execution.Returned? then
        Exit(sh.(row := Deliver(sh.row,
          FailOutcome(sh.row, w.id, w.token, w.execution.out, REPORTED_MALFUNCTION, now), e.fault).row))
      else Exit(sh)
    case _ =>
      if w.execution.Returned? && w.payload.Some? then
        AdvanceStaged(c, sh, w, w.execution.out, w.payload.value, now, e)
      else Exit(sh)
  }

  /** The statements from StageOutcome on: they carry an outcome and its canonical bytes. */
  function AdvanceStaged(c: Config, sh: Shared, w: Worker, out: Outcome, p: Payload, now: Time, e: Env): Next {
    match w.pc
    case Stage =>
      var u := Deliver(sh.row, StageOutcome(sh.row, w.id, w.token, out, p, now), e.fault);
      (match u.reply
       case Wrote => Goto(sh.(row := u.row), w, Route(w, out))
       case Unmatched => Goto(sh.(row := u.row), w, Probe)
       case Error => Exit(sh.(row := u.row)))
    case Probe =>
      var hb := Beating(sh.row, Heartbeat(sh.row, w.id, w.token, now, c.lease), e.fault);
      if hb.1 == Owned(true) then Goto(sh.(row := hb.0), w, MarkCancel) else Exit(sh.(row := hb.0))
    case FailUnavailable =>
      Exit(sh.(row := Deliver(sh.row, FailOutcome(sh.row, w.id, w.token, out, UNAVAILABLE, now), e.fault).row))
    case Fence =>
      var hb := Beating(sh.row, Heartbeat(sh.row, w.id, w.token, now, c.lease), e.fault);
      (match hb.1
       case Owned(requested) => Goto(sh.(row := hb.0), w, if requested then MarkCancel else MarkPending)
       case _ => Exit(sh.(row := hb.0)))
    case MarkPending =>
      var u := Deliver(sh.row, MarkPublicationPending(sh.row, w.id, w.token, now), e.fault);
      if u.reply.Wrote? then Goto(sh.(row := u.row), w.(pending := true), Publish) else Exit(sh.(row := u.row))
    case Publish =>
      var row := RowFor(out, p);
      if e.refused || !ValidPayload(out, p) then Goto(sh, w, RetryLater)
      else if e.mergeOk then Goto(sh.(table := Merge(sh.table, row)), w, ReadBack)
      else Goto(sh.(inflight := sh.inflight + {row}), w, Reconcile(w))
    case ReadBack =>
      if !e.readFails && Classify(sh.table, RowFor(out, p)) == Identical then Goto(sh, w, Complete)
      else Goto(sh, w, Reconcile(w))
    case Verify =>
      Goto(sh, w, if e.refused || !ValidPayload(out, p) || e.readFails then RetryLater
                  else Reconciled(Classify(sh.table, RowFor(out, p))))
    case RetryLater =>
      var delay := VerificationDelay(c.backoff, w.verifications);
      Exit(sh.(row := Deliver(sh.row,
        RetryVerification(sh.row, w.id, w.token, c.maxVerifications, delay, UNVERIFIED, now), e.fault).row))
    case FailConflict =>
      Exit(sh.(row := Deliver(sh.row, FailPublicationConflict(sh.row, w.id, w.token, CONFLICTING, now), e.fault).row))
    case Complete =>
      Exit(sh.(row := Deliver(sh.row, CompletePublished(sh.row, w.id, w.token, out, p, now), e.fault).row))
    case _ => Exit(sh)
  }

  /** One tick of the heartbeat goroutine. `late` says that a failed beat came at
      least one lease length after the last successful one. */
  function BeatOnce(c: Config, r: Row, w: Worker, now: Time, f: Fault, late: bool): (Row, Worker) {
    var hb := Beating(r, Heartbeat(r, w.id, w.token, now, c.lease), f);
    match hb.1
    case Owned(requested) => (hb.0, w.(cancelSeen := w.cancelSeen || requested))
    case NotOwned => (hb.0, w.(leaseLost := true))
    case BeatError => (hb.0, w.(leaseLost := w.leaseLost || late))
  }
}
