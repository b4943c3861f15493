/** The store's methods as they are written: each assigns columns of one ledger row
    in place when its guard matches. Every method states its guard and its columns.
    `View` reads the row back as a value, and every method is also proved to do what the
    function of the same name in Ledger says; the theorems about those functions are then
    theorems about these methods. */
module RunStore {
  import opened Wrappers
  import L = Ledger

  /** The bytes seal an outcome of the same run and result with the same digest. */
  predicate Seals(p: L.Payload, out: L.Outcome) {
    p.decoded.content.runId == out.content.runId && p.decoded.content.resultId == out.content.resultId &&
    p.decoded.digest == out.digest && p.decoded.digest == L.Sha256(p.decoded.content)
  }

  class LedgerRow {
    const runId: string
    const resultId: string
    const createdAt: L.Time
    var status: L.Status
    var terminalState: string
    var response: Option<L.Payload>
    var payload: Option<L.Payload>
    var completion: Option<L.Completion>
    var failure: Option<L.Failure>
    var completedAt: Option<L.Time>
    var workerId: Option<L.WorkerId>
    var token: Option<L.Token>
    var expires: Option<L.Time>
    var attempt: nat
    var cancelRequested: bool
    var pending: bool
    var verifications: nat
    var retryAt: Option<L.Time>
    var outbox: L.Outbox            // the callback columns

    function View(): L.Row
      reads this
    {
      L.Row(runId, resultId, createdAt, status, terminalState, response, payload, completion, failure, completedAt,
            workerId, token, expires, attempt, cancelRequested, pending, verifications, retryAt, outbox)
    }

    /** The row that CreateOrGet inserts. */
    constructor (run: string, result: string, now: L.Time, url: bool)
      ensures View() == L.Created(run, result, now, url)
      ensures runId == run && resultId == result && createdAt == now && status.Queued? && terminalState == ""
      ensures response.None? && payload.None? && completion.None? && failure.None? && completedAt.None?
      ensures workerId.None? && token.None? && expires.None? && retryAt.None? && attempt == 0 && verifications == 0
      ensures !cancelRequested && !pending && outbox.hasUrl == url && outbox.attempt == 0 && outbox.nextAt == now
      ensures outbox.state == (if url then Some(L.Waiting) else None) && outbox.token.None? && outbox.expires.None?
    {
      runId, resultId, createdAt := run, result, now;
      status, terminalState := L.Queued, "";
      response, payload, completion, failure, completedAt := None, None, None, None, None;
      workerId, token, expires := None, None, None;
      attempt, cancelRequested, pending, verifications, retryAt := 0, false, false, 0, None;
      outbox := L.Outbox(url, if url then Some(L.Waiting) else None, 0, now, None, None);
    }

    predicate Owns(w: L.WorkerId, tok: L.Token, now: L.Time)
      reads this
    {
      workerId == Some(w) && token == Some(tok) && status.Running? && expires.Some? && expires.value > now
    }

    predicate LeaseExpired(now: L.Time)
      reads this
    {
      expires.Some? && expires.value <= now
    }

    /** The run ended in this statement, with its event due and its lease released. */
    twostate predicate Ended(s: L.Status, ts: string, now: L.Time)
      reads this
    {
      status == s && terminalState == ts && completedAt == Some(now) &&
      workerId.None? && token.None? && expires.None? &&
      outbox == (if old(outbox).hasUrl then old(outbox).(state := Some(L.Pending), nextAt := now) else old(outbox)) &&
      attempt == old(attempt) && cancelRequested == old(cancelRequested)
    }

    twostate predicate SameResult()
      reads this
    {
      response == old(response) && payload == old(payload) && completion == old(completion)
    }

    twostate predicate SamePublication()
      reads this
    {
      pending == old(pending) && verifications == old(verifications) && retryAt == old(retryAt)
    }

    /** The outbox event falls due, where there is a callback. */
    method NotifyCallback(now: L.Time)
      modifies `outbox
      ensures outbox
              == if old(outbox).hasUrl then old(outbox).(state := Some(L.Pending), nextAt := now) else old(outbox)
    {
      if outbox.hasUrl {
        outbox := outbox.(state := Some(L.Pending), nextAt := now);
      }
    }

    /** The columns shared by every terminal transition. */
    method Finish(s: L.Status, ts: string, now: L.Time)
      modifies `status, `terminalState, `completedAt, `workerId, `token, `expires, `outbox
      ensures View() == L.Finish(old(View()), s, ts, now)
    {
      if outbox.hasUrl {
        outbox := outbox.(state := Some(L.Pending), nextAt := now);
      }
      ReleaseLease();
      status, terminalState, completedAt := s, ts, Some(now);
    }

    method ReleaseLease()
      modifies `workerId, `token, `expires
      ensures workerId == None && token == None && expires == None
    {
      workerId, token, expires := None, None, None;
    }

    method TakeLease(w: L.WorkerId, tok: L.Token, until: L.Time)
      modifies `status, `workerId, `token, `expires, `retryAt
      ensures status == L.Running && workerId == Some(w) && token == Some(tok) && expires == Some(until) &&
              retryAt == None
    {
      status, workerId, token, expires, retryAt := L.Running, Some(w), Some(tok), Some(until), None;
    }

    method LeaseNext(w: L.WorkerId, tok: L.Token, now: L.Time, lease: L.Time, maxAttempts: int) returns (reply: L.Reply)
      modifies this
      ensures L.Update(View(), reply) == L.LeaseNext(old(View()), w, tok, now, lease, maxAttempts)
      ensures reply == L.Wrote <==>
              && (!old(cancelRequested) || old(pending))
              && (old(attempt) < maxAttempts || old(response).Some?)
              && (if old(retryAt).Some? then old(retryAt).value else createdAt) <= now
              && (old(status).Queued? || (old(status).Running? && old(LeaseExpired(now))))
      ensures reply == L.Wrote ==>
              View() == old(View()).(status := L.Running, workerId := Some(w), token := Some(tok),
                                     expires := Some(now + lease), attempt := old(attempt) + 1, retryAt := None)
      ensures reply != L.Wrote ==> reply == L.Unmatched && View() == old(View())
    {
      var due := if retryAt.Some? then retryAt.value else createdAt;
      if (cancelRequested && !pending) || (attempt >= maxAttempts && response.None?) || due > now
         || !(status.Queued? || (status.Running? && LeaseExpired(now)))
      {
        return L.Unmatched;
      }
      attempt := attempt + 1;
      TakeLease(w, tok, now + lease);
      return L.Wrote;
    }

    method Heartbeat(w: L.WorkerId, tok: L.Token, now: L.Time, lease: L.Time) returns (beat: L.Beat)
      modifies this
      ensures (View(), beat) == L.Heartbeat(old(View()), w, tok, now, lease)
      ensures old(Owns(w, tok, now)) ==>
              beat == L.Owned(old(cancelRequested)) && View() == old(View()).(expires := Some(now + lease))
      ensures !old(Owns(w, tok, now)) ==> beat == L.NotOwned && View() == old(View())
    {
      if !Owns(w, tok, now) {
        return L.NotOwned;
      }
      expires := Some(now + lease);
      return L.Owned(cancelRequested);
    }

    method StageOutcome(w: L.WorkerId, tok: L.Token, out: L.Outcome, p: L.Payload, now: L.Time) returns (reply: L.Reply)
      modifies this
      ensures L.Update(View(), reply) == L.StageOutcome(old(View()), w, tok, out, p, now)
      ensures reply == L.Error <==> !Seals(p, out)
      ensures reply == L.Wrote <==>
              Seals(p, out) && old(Owns(w, tok, now)) && !old(cancelRequested) && old(response).None?
      ensures View() == if reply == L.Wrote then old(View()).(response := Some(p), payload := Some(p)) else old(View())
    {
      if !L.ValidPayload(out, p) {
        return L.Error;
      }
      if !Owns(w, tok, now) || cancelRequested || response.Some? {
        return L.Unmatched;
      }
      response, payload := Some(p), Some(p);
      return L.Wrote;
    }

    method MarkPublicationPending(w: L.WorkerId, tok: L.Token, now: L.Time) returns (reply: L.Reply)
      modifies this
      ensures L.Update(View(), reply) == L.MarkPublicationPending(old(View()), w, tok, now)
      ensures reply == if old(Owns(w, tok, now)) && !old(cancelRequested) && !old(pending) then L.Wrote else L.Unmatched
      ensures View() == if reply == L.Wrote then old(View()).(pending := true, retryAt := None) else old(View())
    {
      if !Owns(w, tok, now) || cancelRequested || pending {
        return L.Unmatched;
      }
      pending, retryAt := true, None;
      return L.Wrote;
    }

    /** The result columns of a completed run. */
    method KeepResult(p: L.Payload, document: L.Completion)
      modifies `response, `payload, `completion, `pending, `retryAt
      ensures response == Some(p) && payload == Some(p) && completion == Some(document) && !pending && retryAt == None
    {
      response, payload, completion := Some(p), Some(p), Some(document);
      pending, retryAt := false, None;
    }

    method CompletePublished(w: L.WorkerId, tok: L.Token, out: L.Outcome, p: L.Payload, now: L.Time)
      returns (reply: L.Reply)
      modifies this
      ensures L.Update(View(), reply) == L.CompletePublished(old(View()), w, tok, out, p, now)
      ensures reply == L.Error <==>
              !(out.content.ref.Some? && out.content.ref.value.system == "databricks"
                && out.content.ref.value.key == out.content.resultId && Seals(p, out))
      ensures reply == L.Wrote <==> reply != L.Error && old(Owns(w, tok, now))
      ensures reply == L.Wrote ==>
              && Ended(L.Completed, out.content.terminalState, now) && response == Some(p) && payload == Some(p)
              && completion == Some(L.Completion(out.content.runId, out.content.resultId, out.content.terminalState,
                                                 out.content.ref, out.digest))
              && failure == old(failure) && !pending && retryAt.None? && verifications == old(verifications)
      ensures reply != L.Wrote ==> View() == old(View())
    {
      if !L.AuthoritativeRef(out) || !L.ValidPayload(out, p) {
        return L.Error;
      }
      if !Owns(w, tok, now) {
        return L.Unmatched;
      }
      Finish(L.Completed, out.content.terminalState, now);
      KeepResult(p, L.CompletionOf(out));
      return L.Wrote;
    }

    method Fail(w: L.WorkerId, tok: L.Token, f: L.Failure, now: L.Time) returns (reply: L.Reply)
      modifies this
      ensures L.Update(View(), reply) == L.Fail(old(View()), w, tok, f, now)
      ensures reply == if old(Owns(w, tok, now)) then L.Wrote else L.Unmatched
      ensures reply == L.Wrote ==>
              Ended(L.Failed, "malfunction", now) && failure == Some(f) && SameResult() && SamePublication()
      ensures reply != L.Wrote ==> View() == old(View())
    {
      if !Owns(w, tok, now) {
        return L.Unmatched;
      }
      Finish(L.Failed, L.MALFUNCTION, now);
      failure := Some(f);
      return L.Wrote;
    }

    method FailOutcome(w: L.WorkerId, tok: L.Token, out: L.Outcome, f: L.Failure, now: L.Time) returns (reply: L.Reply)
      modifies this
      ensures L.Update(View(), reply) == L.FailOutcome(old(View()), w, tok, out, f, now)
      ensures reply == if old(Owns(w, tok, now)) && !old(cancelRequested) then L.Wrote else L.Unmatched
      ensures reply == L.Wrote ==>
              && Ended(L.Failed, "malfunction", now) && failure == Some(f) && SamePublication()
              && response == Some(L.Payload(out)) && payload == old(payload) && completion == old(completion)
      ensures reply != L.Wrote ==> View() == old(View())
    {
      if !Owns(w, tok, now) || cancelRequested {
        return L.Unmatched;
      }
      Finish(L.Failed, L.MALFUNCTION, now);
      response, failure := Some(L.Payload(out)), Some(f);
      return L.Wrote;
    }

    method FailPublicationConflict(w: L.WorkerId, tok: L.Token, f: L.Failure, now: L.Time) returns (reply: L.Reply)
      modifies this
      ensures L.Update(View(), reply) == L.FailPublicationConflict(old(View()), w, tok, f, now)
      ensures reply == if old(Owns(w, tok, now)) then L.Wrote else L.Unmatched
      ensures reply == L.Wrote ==>
              && Ended(L.Failed, "malfunction", now) && failure == Some(f) && SameResult()
              && !pending && verifications == old(verifications) && retryAt == old(retryAt)
      ensures reply != L.Wrote ==> View() == old(View())
    {
      if !Owns(w, tok, now) {
        return L.Unmatched;
      }
      Finish(L.Failed, L.MALFUNCTION, now);
      failure, pending := Some(f), false;
      return L.Wrote;
    }

    method RetryVerification(w: L.WorkerId, tok: L.Token, maxVerifications: int, delay: L.Time, f: L.Failure,
                             now: L.Time)
      returns (reply: L.Reply)
      modifies this
      ensures L.Update(View(), reply) == L.RetryVerification(old(View()), w, tok, maxVerifications, delay, f, now)
      ensures reply == if old(Owns(w, tok, now)) && old(pending) then L.Wrote else L.Unmatched
      ensures reply == L.Wrote ==> verifications == old(verifications) + 1 && SameResult()
      ensures reply == L.Wrote && verifications >= maxVerifications ==>
              Ended(L.Failed, "malfunction", now) && failure == Some(f) && !pending && retryAt.None?
      ensures reply == L.Wrote && verifications < maxVerifications ==>
              && status.Queued? && terminalState == "" && failure.None? && completedAt.None? && pending
              && retryAt == Some(now + delay) && workerId.None? && token.None? && expires.None?
              && attempt == old(attempt) && cancelRequested == old(cancelRequested) && outbox == old(outbox)
      ensures reply != L.Wrote ==> View() == old(View())
    {
      if !Owns(w, tok, now) || !pending {
        return L.Unmatched;
      }
      if verifications + 1 >= maxVerifications {
        Finish(L.Failed, L.MALFUNCTION, now);
        verifications := verifications + 1;
        EndPublication(f);
      } else {
        verifications := verifications + 1;
        BackToQueue(now + delay);
      }
      return L.Wrote;
    }

    /** The publication columns of a run that is given up. */
    method EndPublication(f: L.Failure)
      modifies `failure, `pending, `retryAt
      ensures failure == Some(f) && !pending && retryAt == None
    {
      failure, pending, retryAt := Some(f), false, None;
    }

    /** Queued again with a retry time, the lease released and no failure recorded. */
    method BackToQueue(due: L.Time)
      modifies `status, `terminalState, `failure, `completedAt, `retryAt, `workerId, `token, `expires
      ensures status == L.Queued && terminalState == "" && failure == None && completedAt == None
      ensures retryAt == Some(due) && workerId == None && token == None && expires == None
    {
      status, terminalState, failure, completedAt := L.Queued, "", None, None;
      retryAt, workerId, token, expires := Some(due), None, None, None;
    }

    method FailExhausted(now: L.Time, maxAttempts: int)
      modifies this
      ensures View() == L.FailExhausted(old(View()), now, maxAttempts)
      ensures if old(status).Running? && !old(cancelRequested) && old(response).None? && old(LeaseExpired(now))
                 && old(attempt) >= maxAttempts
              then Ended(L.Failed, "malfunction", now) && SameResult() && SamePublication()
                   && failure == Some(L.Failure("worker_attempts_exhausted", false))
              else View() == old(View())
    {
      if status.Running? && !cancelRequested && response.None? && LeaseExpired(now) && attempt >= maxAttempts {
        Finish(L.Failed, L.MALFUNCTION, now);
        failure := Some(L.EXHAUSTED);
      }
    }

    method RecoverCanceled(now: L.Time)
      modifies this
      ensures View() == L.RecoverCanceled(old(View()), now)
      ensures if old(status).Running? && old(cancelRequested) && !old(pending) && old(LeaseExpired(now))
              then Ended(L.Canceled, "canceled", now) && SameResult() && SamePublication() && failure == old(failure)
              else View() == old(View())
    {
      if status.Running? && cancelRequested && !pending && LeaseExpired(now) {
        Finish(L.Canceled, "canceled", now);
        pending := false;
      }
    }

    method Cancel(now: L.Time)
      modifies this
      ensures View() == L.Cancel(old(View()), now)
      ensures if old(status).Completed? || old(status).Failed? || old(status).Canceled? then View() == old(View())
              else if old(status).Queued? && !old(pending) then
                && status.Canceled? && terminalState == "canceled" && completedAt == Some(now) && cancelRequested
                && outbox == (if old(outbox).hasUrl then old(outbox).(state := Some(L.Pending), nextAt := now)
                              else old(outbox))
                && SameResult() && SamePublication() && failure == old(failure) && attempt == old(attempt)
                && workerId == old(workerId) && token == old(token) && expires == old(expires)
              else View() == old(View()).(cancelRequested := true)
    {
      if L.Terminal(status) {
        return;
      }
      if status.Queued? && !pending {
        NotifyCallback(now);
        status, terminalState, completedAt := L.Canceled, "canceled", Some(now);
      }
      cancelRequested := true;
    }

    /** The only worker statement that does not test the lease's expiry. */
    method MarkCanceled(w: L.WorkerId, tok: L.Token, now: L.Time) returns (reply: L.Reply)
      modifies this
      ensures L.Update(View(), reply) == L.MarkCanceled(old(View()), w, tok, now)
      ensures reply == if old(workerId) == Some(w) && old(token) == Some(tok) && old(status).Running?
                          && old(cancelRequested) && !old(pending) then L.Wrote else L.Unmatched
      ensures reply == L.Wrote ==>
              Ended(L.Canceled, "canceled", now) && SameResult() && SamePublication() && failure == old(failure)
      ensures reply != L.Wrote ==> View() == old(View())
    {
      if workerId != Some(w) || token != Some(tok) || !status.Running? || !cancelRequested || pending {
        return L.Unmatched;
      }
      Finish(L.Canceled, "canceled", now);
      pending := false;
      return L.Wrote;
    }

    method ClaimNextCallback(tok: L.Token, now: L.Time, lease: L.Time) returns (reply: L.Reply)
      modifies this
      ensures L.Update(View(), reply) == L.ClaimNextCallback(old(View()), tok, now, lease)
      ensures reply == L.Wrote <==>
              && (old(status).Completed? || old(status).Failed? || old(status).Canceled?) && old(outbox).hasUrl
              && (old(outbox).state == Some(L.Pending) || old(outbox).state == Some(L.Retry)
                  || old(outbox).state == Some(L.Delivering))
              && old(outbox).nextAt <= now && (old(outbox).expires.Some? ==> old(outbox).expires.value <= now)
      ensures reply == L.Wrote ==>
              View() == old(View()).(outbox := old(outbox).(state := Some(L.Delivering), token := Some(tok),
                                                            expires := Some(now + lease)))
      ensures reply != L.Wrote ==> reply == L.Unmatched && View() == old(View())
    {
      if !L.Terminal(status) || !outbox.hasUrl
         || (outbox.state != Some(L.Pending) && outbox.state != Some(L.Retry) && outbox.state != Some(L.Delivering))
         || outbox.nextAt > now || (outbox.expires.Some? && outbox.expires.value > now)
      {
        return L.Unmatched;
      }
      outbox := outbox.(state := Some(L.Delivering), token := Some(tok), expires := Some(now + lease));
      return L.Wrote;
    }

    method ResolveCallback(tok: L.Token, res: L.Resolution, now: L.Time) returns (reply: L.Reply)
      modifies this
      ensures L.Update(View(), reply) == L.ResolveCallback(old(View()), tok, res, now)
      ensures reply == if old(outbox).state == Some(L.Delivering) && old(outbox).token == Some(tok) then L.Wrote
                       else L.Unmatched
      ensures reply == L.Wrote ==>
              && View() == old(View()).(outbox := outbox) && outbox.hasUrl == old(outbox).hasUrl
              && outbox.attempt == old(outbox).attempt + 1 && outbox.token.None? && outbox.expires.None?
              && outbox.state == Some(if res.Accepted? then L.Delivered else if res.RetryAfter? then L.Retry
                                      else L.ConfigurationFailed)
              && outbox.nextAt == if res.RetryAfter? then now + res.delay else old(outbox).nextAt
      ensures reply != L.Wrote ==> View() == old(View())
    {
      if outbox.state != Some(L.Delivering) || outbox.token != Some(tok) {
        return L.Unmatched;
      }
      match res {
        case Accepted => outbox := outbox.(state := Some(L.Delivered));
        case RetryAfter(delay) => outbox := outbox.(state := Some(L.Retry), nextAt := now + delay);
        case Misconfigured => outbox := outbox.(state := Some(L.ConfigurationFailed));
      }
      outbox := outbox.(attempt := outbox.attempt + 1, token := None, expires := None);
      return L.Wrote;
    }
  }

  /** The runs by request id. */
  class RunIndex {
    var runs: map<string, LedgerRow>

    constructor ()
      ensures runs == map[]
    {
      runs := map[];
    }

    /** CreateOrGet: the first submission of a request inserts its run; every later one
        gets that same run back, and changes nothing. */
    method CreateOrGet(request: string, run: string, result: string, now: L.Time, url: bool)
      returns (stored: LedgerRow, created: bool)
      modifies this
      ensures created <==> request !in old(runs)
      ensures created ==> fresh(stored) && stored.View() == L.Created(run, result, now, url)
      ensures !created ==> stored == old(runs)[request]
      ensures runs == old(runs)[request := stored]
    {
      created := request !in runs;
      if created {
        stored := new LedgerRow(run, result, now, url);
        runs := runs[request := stored];
      } else {
        stored := runs[request];
      }
    }
  }
}
