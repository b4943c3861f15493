/** The run ledger: one row of defense_validation_run and the guarded UPDATE
    statements of the store, each as a function from row to row.

    A guard that does not hold leaves the row as it is, exactly like a SQL UPDATE
    that matches no row. RunStore.dfy holds the same statements as methods that
    assign the columns in place. */
module Ledger {
  import opened Wrappers

  /** A lease token or a callback claim token: a value of newID(), never issued twice. */
  type Token = nat
  type WorkerId = nat
  /** Clock readings and durations, in the clock's own unit. */
  type Time = int

  datatype Status = Queued | Running | Completed | Failed | Canceled

  predicate Terminal(s: Status) { s.Completed? || s.Failed? || s.Canceled? }

  const MALFUNCTION := "malfunction"

  datatype ResultRef = ResultRef(system: string, destination: string, key: string, placeholder: bool)

  /** A run outcome without its integrity fields. */
  datatype Content = Content(runId: string, resultId: string, terminalState: string,
                             ref: Option<ResultRef>, document: string)

  /** The integrity metadata. The digest is taken to be injective, so it is
      represented by what it was computed from. */
  datatype Digest = Unset | Sha256(of: Content)

  datatype Outcome = Outcome(content: Content, digest: Digest)

  /** Canonical result bytes, represented by the outcome they decode to: the
      encoder is deterministic and only its own output passes validation. */
  datatype Payload = Payload(decoded: Outcome)

  datatype Failure = Failure(code: string, retryable: bool)

  datatype Completion = Completion(runId: string, resultId: string, terminalState: string,
                                   ref: Option<ResultRef>, digest: Digest)

  datatype CallbackState = Waiting | Pending | Delivering | Retry | Delivered | ConfigurationFailed

  /** The callback columns. `state` is NULL exactly when no URL was supplied. */
  datatype Outbox = Outbox(hasUrl: bool, state: Option<CallbackState>, attempt: nat, nextAt: Time,
                           token: Option<Token>, expires: Option<Time>)

  datatype Row = Row(
    runId: string, resultId: string, createdAt: Time,
    status: Status, terminalState: string,
    response: Option<Payload>,       // None is the column default '{}'
    payload: Option<Payload>,        // result_payload
    completion: Option<Completion>, failure: Option<Failure>, completedAt: Option<Time>,
    workerId: Option<WorkerId>, token: Option<Token>, expires: Option<Time>,
    attempt: nat, cancelRequested: bool,
    pending: bool,                   // publication_pending
    verifications: nat,              // verification_attempt
    retryAt: Option<Time>,           // publication_retry_at
    outbox: Outbox)

  /** What a caller of an UPDATE sees: rows-affected one or zero, or an error. */
  datatype Reply = Wrote | Unmatched | Error
  datatype Update = Update(row: Row, reply: Reply)
  datatype Beat = Owned(requested: bool) | NotOwned | BeatError

  // ---- payload validation ----

  predicate Sealed(out: Outcome) { out.digest == Sha256(out.content) }

  /** The checks of validateCanonicalResultPayload. */
  predicate ValidPayload(out: Outcome, p: Payload) {
    && p.decoded.content.runId == out.content.runId
    && p.decoded.content.resultId == out.content.resultId
    && p.decoded.digest == out.digest
    && Sealed(p.decoded)
  }

  function CanonicalPayload(out: Outcome): Option<Payload> {
    if Sealed(out) then Some(Payload(out)) else None
  }

  /** Because the digest covers the content, a payload that passes validation
      against a sealed outcome is that outcome's own encoding and nothing else. */
  lemma ValidPayloadIsTheEncoding(out: Outcome, p: Payload)
    requires Sealed(out)
    ensures ValidPayload(out, p) <==> CanonicalPayload(out) == Some(p)
  {
    if ValidPayload(out, p) {
      assert p.decoded == Outcome(p.decoded.content, p.decoded.digest);
    }
  }

  // ---- submission ----

  function Created(runId: string, resultId: string, now: Time, hasUrl: bool): Row {
    Row(runId, resultId, now, Queued, "", None, None, None, None, None, None, None, None, 0, false,
        false, 0, None, Outbox(hasUrl, if hasUrl then Some(Waiting) else None, 0, now, None, None))
  }

  // ---- leasing ----

  /** What LeaseNext selects by. */
  predicate Leasable(r: Row, now: Time, maxAttempts: int) {
    && (!r.cancelRequested || r.pending)
    && (r.attempt < maxAttempts || r.response.Some?)
    && (if r.retryAt.Some? then r.retryAt.value else r.createdAt) <= now
    && (r.status.Queued? || (r.status.Running? && Expired(r, now)))
  }

  /** The lease has expired; without a lease it has not. */
  predicate Expired(r: Row, now: Time) { r.expires.Some? && r.expires.value <= now }

  function LeaseNext(r: Row, w: WorkerId, tok: Token, now: Time, lease: Time, maxAttempts: int): Update {
    if Leasable(r, now, maxAttempts) then
      Update(r.(status := Running, workerId := Some(w), token := Some(tok), expires := Some(now + lease),
                attempt := r.attempt + 1, retryAt := None), Wrote)
    else Update(r, Unmatched)
  }

  /** The worker holds the row's lease, expired or not. */
  predicate Holds(r: Row, w: WorkerId, tok: Token) {
    r.workerId == Some(w) && r.token == Some(tok) && r.status.Running?
  }

  /** And the lease is live. */
  predicate Owns(r: Row, w: WorkerId, tok: Token, now: Time) {
    Holds(r, w, tok) && r.expires.Some? && r.expires.value > now
  }

  function Heartbeat(r: Row, w: WorkerId, tok: Token, now: Time, lease: Time): (Row, Beat) {
    if Owns(r, w, tok, now) then (r.(expires := Some(now + lease)), Owned(r.cancelRequested))
    else (r, NotOwned)
  }

  // ---- staging and publication ----

  function StageOutcome(r: Row, w: WorkerId, tok: Token, out: Outcome, p: Payload, now: Time): Update {
    if !ValidPayload(out, p) then Update(r, Error)
    else if Owns(r, w, tok, now) && !r.cancelRequested && r.response.None? then
      Update(r.(response := Some(p), payload := Some(p)), Wrote)
    else Update(r, Unmatched)
  }

  function MarkPublicationPending(r: Row, w: WorkerId, tok: Token, now: Time): Update {
    if Owns(r, w, tok, now) && !r.cancelRequested && !r.pending then
      Update(r.(pending := true, retryAt := None), Wrote)
    else Update(r, Unmatched)
  }

  predicate AuthoritativeRef(out: Outcome) {
    match out.content.ref
    case Some(ref) => ref.system == "databricks" && ref.key == out.content.resultId
    case None => false
  }

  function CompletionOf(out: Outcome): Completion {
    Completion(out.content.runId, out.content.resultId, out.content.terminalState, out.content.ref, out.digest)
  }

  function CompletePublished(r: Row, w: WorkerId, tok: Token, out: Outcome, p: Payload, now: Time): Update {
    if !AuthoritativeRef(out) || !ValidPayload(out, p) then Update(r, Error)
    else if Owns(r, w, tok, now) then
      Update(Finish(r, Completed, out.content.terminalState, now)
             .(response := Some(p), payload := Some(p), completion := Some(CompletionOf(out)),
               pending := false, retryAt := None), Wrote)
    else Update(r, Unmatched)
  }

  function RetryVerification(r: Row, w: WorkerId, tok: Token, maxVerifications: int, delay: Time,
                             f: Failure, now: Time): Update {
    if Owns(r, w, tok, now) && r.pending then
      if r.verifications + 1 >= maxVerifications then
        Update(Finish(r, Failed, MALFUNCTION, now)
               .(verifications := r.verifications + 1, failure := Some(f), pending := false, retryAt := None), Wrote)
      else
        Update(r.(verifications := r.verifications + 1, status := Queued, terminalState := "", failure := None,
                  completedAt := None, pending := true, retryAt := Some(now + delay),
                  workerId := None, token := None, expires := None), Wrote)
    else Update(r, Unmatched)
  }

  // ---- terminal transitions ----

  /** The columns every terminal transition writes in the same statement: status,
      terminal state, completion time, the outbox event and the released lease. */
  function Finish(r: Row, status: Status, terminalState: string, now: Time): Row {
    r.(status := status, terminalState := terminalState, completedAt := Some(now),
       outbox := if r.outbox.hasUrl then r.outbox.(state := Some(Pending), nextAt := now) else r.outbox,
       workerId := None, token := None, expires := None)
  }

  /** publication_pending is not part of this statement. */
  function Fail(r: Row, w: WorkerId, tok: Token, f: Failure, now: Time): Update {
    if Owns(r, w, tok, now) then Update(Finish(r, Failed, MALFUNCTION, now).(failure := Some(f)), Wrote)
    else Update(r, Unmatched)
  }

  /** Neither publication_pending nor result_payload is part of this statement. */
  function FailOutcome(r: Row, w: WorkerId, tok: Token, out: Outcome, f: Failure, now: Time): Update {
    if Owns(r, w, tok, now) && !r.cancelRequested then
      Update(Finish(r, Failed, MALFUNCTION, now).(response := Some(Payload(out)), failure := Some(f)), Wrote)
    else Update(r, Unmatched)
  }

  function FailPublicationConflict(r: Row, w: WorkerId, tok: Token, f: Failure, now: Time): Update {
    if Owns(r, w, tok, now) then
      Update(Finish(r, Failed, MALFUNCTION, now).(failure := Some(f), pending := false), Wrote)
    else Update(r, Unmatched)
  }

  const EXHAUSTED := Failure("worker_attempts_exhausted", false)

  predicate Exhausted(r: Row, now: Time, maxAttempts: int) {
    r.status.Running? && !r.cancelRequested && r.response.None? && Expired(r, now) && r.attempt >= maxAttempts
  }

  function FailExhausted(r: Row, now: Time, maxAttempts: int): Row {
    if Exhausted(r, now, maxAttempts) then Finish(r, Failed, MALFUNCTION, now).(failure := Some(EXHAUSTED))
    else r
  }

  predicate OrphanCanceled(r: Row, now: Time) {
    r.status.Running? && r.cancelRequested && !r.pending && Expired(r, now)
  }

  function RecoverCanceled(r: Row, now: Time): Row {
    if OrphanCanceled(r, now) then Finish(r, Canceled, "canceled", now).(pending := false) else r
  }

  /** The lease columns are not part of this statement. */
  function Cancel(r: Row, now: Time): Row {
    if Terminal(r.status) then r
    else if r.status.Queued? && !r.pending then
      r.(cancelRequested := true, status := Canceled, terminalState := "canceled", completedAt := Some(now),
         outbox := if r.outbox.hasUrl then r.outbox.(state := Some(Pending), nextAt := now) else r.outbox)
    else r.(cancelRequested := true)
  }

  function MarkCanceled(r: Row, w: WorkerId, tok: Token, now: Time): Update {
    if Holds(r, w, tok) && r.cancelRequested && !r.pending then
      Update(Finish(r, Canceled, "canceled", now).(pending := false), Wrote)
    else Update(r, Unmatched)
  }

  // ---- callback outbox ----

  predicate Claimable(r: Row, now: Time) {
    && Terminal(r.status) && r.outbox.hasUrl
    && (r.outbox.state == Some(Pending) || r.outbox.state == Some(Retry) || r.outbox.state == Some(Delivering))
    && r.outbox.nextAt <= now
    && (r.outbox.expires.None? || r.outbox.expires.value <= now)
  }

  function ClaimNextCallback(r: Row, tok: Token, now: Time, lease: Time): Update {
    if Claimable(r, now) then
      Update(r.(outbox := r.outbox.(state := Some(Delivering), token := Some(tok), expires := Some(now + lease))),
          Wrote)
    else Update(r, Unmatched)
  }

  datatype Resolution = Accepted | RetryAfter(delay: Time) | Misconfigured

  /** The event is being delivered under this token; whether the claim has expired is not tested. */
  predicate Claims(r: Row, tok: Token) { r.outbox.state == Some(Delivering) && r.outbox.token == Some(tok) }

  /** CallbackSucceeded, CallbackFailed and CallbackConfigurationFailed. */
  function ResolveCallback(r: Row, tok: Token, res: Resolution, now: Time): Update {
    if !Claims(r, tok) then Update(r, Unmatched)
    else
      var o := r.outbox.(attempt := r.outbox.attempt + 1, token := None, expires := None);
      Update(r.(outbox := match res
                          case Accepted => o.(state := Some(Delivered))
                          case RetryAfter(d) => o.(state := Some(Retry), nextAt := now + d)
                          case Misconfigured => o.(state := Some(ConfigurationFailed))), Wrote)
  }
}
