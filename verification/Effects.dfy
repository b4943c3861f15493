/** When the statements that no worker call covers take effect, and when they do not: the
    lease and the two sweeps, requests to cancel, callback claims, and leases that ran out. */
module Effects {
  import opened Wrappers
  import opened Ledger
  import opened ResultSink
  import opened Worker
  import opened Protocol

  // ---- the lease and the sweeps ----

  /** A canceled run is not leased unless publication is pending, and nothing is executed
      once the attempts are used up. */
  predicate MayGoOn(c: Config, r: Row) {
    (!r.cancelRequested || r.pending) && (r.attempt < c.maxAttempts || r.payload.Some?)
  }

  /** Its time has come: a queued run's retry time or creation, a running one's lease. */
  predicate TimeHasCome(r: Row, now: Time) {
    (if r.retryAt.Some? then r.retryAt.value <= now else r.createdAt <= now) &&
    (r.status.Running? ==> r.expires.Some? && r.expires.value <= now)
  }

  /** A lease is granted exactly to a live run that may go on and whose time has come; the
      worker then holds it from now for the length of a lease. */
  lemma LeaseActs(c: Config, s: Sys, id: WorkerId, tok: Token, publisher: bool, verifier: bool)
    requires Inv(c, s) && id !in s.workers && tok !in s.hist.issued
    ensures var r := s.shared.row; var t := Apply(c, s, Lease(id, tok, publisher, verifier, NoFault));
            var r' := t.shared.row;
            if !Terminal(r.status) && MayGoOn(c, r) && TimeHasCome(r, s.now) then
              && r'.status.Running? && r'.workerId == Some(id) && r'.token == Some(tok)
              && r'.expires == Some(s.now + c.lease) && r'.attempt == r.attempt + 1 && r'.retryAt.None?
              && id in t.workers && t.workers[id].pc.Start? && t.workers[id].staged == r.payload
              && t.workers[id].id == id && t.workers[id].token == tok
              && t.workers[id].publisher == publisher && t.workers[id].verifier == verifier
              && t.workers[id].pending == r.pending && t.workers[id].verifications == r.verifications
              && !t.workers[id].cancelSeen && !t.workers[id].leaseLost
            else t == s
  {
  }

  /** The sweep of canceled runs acts exactly on those whose worker let the lease run out
      before the cutoff. */
  lemma RecoverActs(c: Config, s: Sys)
    requires Inv(c, s)
    ensures var r := s.shared.row; var r' := Apply(c, s, RecoverOrphan).shared.row;
            if r.status.Running? && r.cancelRequested && !r.pending && r.expires.Some? && r.expires.value <= s.now
            then r'.status.Canceled? && r'.completedAt == Some(s.now) && r'.token.None?
            else r' == r
  {
  }

  /** The sweep of exhausted runs acts exactly on those that hold no result and no request
      to cancel, and may not be leased again. */
  lemma SweepActs(c: Config, s: Sys)
    requires Inv(c, s)
    ensures var r := s.shared.row; var r' := Apply(c, s, SweepExhausted).shared.row;
            if r.status.Running? && !r.cancelRequested && !MayGoOn(c, r) && r.expires.Some? && r.expires.value <= s.now
            then r'.status.Failed? && r'.failure.Some? && r'.failure.value.code == "worker_attempts_exhausted"
                 && r'.completedAt == Some(s.now) && r'.token.None?
            else r' == r
  {
  }

  /** A request to cancel ends a queued run at once, unless publication is pending; it is
      put on record for any other live run, and changes nothing else. */
  lemma CancelActs(c: Config, s: Sys)
    requires Inv(c, s)
    ensures var r := s.shared.row; var r' := Apply(c, s, RequestCancel).shared.row;
            if Terminal(r.status) then r' == r
            else if r.status.Queued? && !r.pending then
              && r'.status.Canceled? && r'.cancelRequested && r'.completedAt == Some(s.now)
              && r'.terminalState == "canceled"
            else r' == r.(cancelRequested := true)
  {
  }

  /** Once a lease has run out, its worker's statements and heartbeats leave the row alone;
      only the statement that confirms a requested cancellation still counts. */
  lemma ExpiredLeaseWritesNothing(c: Config, s: Sys, id: WorkerId, e: Env, f: Fault, late: bool)
    requires id in s.workers && s.shared.row.expires.Some? && s.shared.row.expires.value <= s.now
    ensures Apply(c, s, HeartbeatTick(id, f, late)).shared.row == s.shared.row
    ensures !s.workers[id].pc.MarkCancel? ==> Apply(c, s, Step(id, e)).shared.row == s.shared.row
  {
    if !s.workers[id].pc.MarkCancel? {
      ExpiredStatement(c, s.shared, s.workers[id], s.now, e);
    }
  }

  lemma ExpiredStatement(c: Config, sh: Shared, w: Worker, now: Time, e: Env)
    requires sh.row.expires.Some? && sh.row.expires.value <= now && !w.pc.MarkCancel?
    ensures Advance(c, sh, w, now, e).shared.row == sh.row
  {
  }

  /** While the lease is live, a heartbeat moves its end to a lease from now and shows the
      worker a request to cancel. */
  lemma HeartbeatActs(c: Config, s: Sys, id: WorkerId)
    requires id in s.workers && !s.workers[id].leaseLost
    requires var r, w := s.shared.row, s.workers[id];
             r.status.Running? && r.workerId == Some(w.id) && r.token == Some(w.token)
             && r.expires.Some? && r.expires.value > s.now
    ensures var t := Apply(c, s, HeartbeatTick(id, NoFault, false));
            && t.shared.row == s.shared.row.(expires := Some(s.now + c.lease))
            && t.workers[id].cancelSeen == (s.workers[id].cancelSeen || s.shared.row.cancelRequested)
            && !t.workers[id].leaseLost
  {
  }

  /** A heartbeat that is answered tells the worker when the row is no longer its own; one
      that is not answered does so only after the length of a lease. */
  lemma LostLeaseIsNoticed(c: Config, s: Sys, id: WorkerId, f: Fault, late: bool)
    requires id in s.workers && !s.workers[id].leaseLost
    ensures var r, w := s.shared.row, s.workers[id]; var t := Apply(c, s, HeartbeatTick(id, f, late));
            var owned := r.status.Running? && r.workerId == Some(w.id) && r.token == Some(w.token)
                         && r.expires.Some? && r.expires.value > s.now;
            && (f.NoFault? ==> t.workers[id].leaseLost == !owned)
            && (!f.NoFault? ==> t.workers[id].leaseLost == late && t.workers[id].cancelSeen == w.cancelSeen)
            && (!owned || f.LostRequest? ==> t.shared.row == r)
            && t.workers[id] == w.(leaseLost := t.workers[id].leaseLost, cancelSeen := t.workers[id].cancelSeen)
  {
  }

  // ---- the callback event ----

  /** An event is claimed exactly when its run has ended, it is due, it is not settled, and
      no claim on it is still live. */
  lemma ClaimActs(c: Config, s: Sys, tok: Token, lease: Time)
    requires Inv(c, s) && tok !in s.hist.claims
    ensures var o := s.shared.row.outbox; var t := Apply(c, s, Claim(tok, lease));
            if Terminal(s.shared.row.status) && o.hasUrl && o.nextAt <= s.now
               && o.state != Some(Delivered) && o.state != Some(ConfigurationFailed)
               && (o.expires.Some? ==> o.expires.value <= s.now)
            then t.shared.row == s.shared.row.(outbox :=
                   o.(state := Some(Delivering), token := Some(tok), expires := Some(s.now + lease)))
            else t == s
  {
    if s.shared.row.outbox.hasUrl {
      match s.shared.row.outbox.state.value {
        case Waiting =>
        case Pending =>
        case Delivering =>
        case Retry =>
        case Delivered =>
        case ConfigurationFailed =>
      }
    }
  }

  // ---- everybody else ----

  /** The clock, crashes, and MERGEs that land late or come from elsewhere: what each of
      them changes, and nothing besides. */
  lemma OthersAct(c: Config, s: Sys, d: nat, id: WorkerId, row: SinkRow)
    ensures Apply(c, s, Tick(d)) == s.(now := s.now + d)
    ensures Apply(c, s, Crash(id)) == s.(workers := s.workers - {id})
    ensures var merged := if exists x :: x in s.shared.table && x.resultId == row.resultId then s.shared.table
                          else s.shared.table + [row];
            && Apply(c, s, ForeignMerge(row)) == s.(shared := s.shared.(table := merged))
            && Apply(c, s, LateMerge(row)) ==
               if row in s.shared.inflight
               then s.(shared := s.shared.(table := merged, inflight := s.shared.inflight - {row})) else s
  {
    var found := Matching(s.shared.table, row.resultId);
    assert found != [] ==> found[0] in found;
    assert forall x :: x in found <==> x in s.shared.table && x.resultId == row.resultId;
  }

  // ---- what the history counts ----

  function One(b: bool): nat { if b then 1 else 0 }

  /** Publish calls, executor starts, bytes handed on, requeues and the cutoff are counted
      where they happen. */
  lemma StepIsRecorded(c: Config, s: Sys, id: WorkerId, e: Env)
    requires id in s.workers && OwnOutcome(s.shared.row, e.execution)
    ensures var w, h, t := s.workers[id], s.hist, Apply(c, s, Step(id, e));
            var starts, r, r' := w.pc.Start? && w.staged.None?, s.shared.row, t.shared.row;
            && t.hist.publishes == h.publishes + One(w.pc.Publish?)
            && t.hist.executions == h.executions + One(starts)
            && t.hist.executed == (if starts then h.executed + {w.token} else h.executed)
            && t.hist.used == (if (w.pc.Publish? || w.pc.ReadBack? || w.pc.Verify? || w.pc.Complete?) && w.payload.Some?
                               then h.used + {w.payload.value} else h.used)
            && t.hist.requeues == h.requeues + One(w.pc.RetryLater? && r.status.Running? && r'.status.Queued?)
            && t.hist.marker == (if w.pc.MarkPending? && r'.pending && !r.pending then Some(w.token) else h.marker)
            && t.hist.staged == (if h.staged.None? then r'.payload else h.staged)
            && t.hist == h.(publishes := t.hist.publishes, executions := t.hist.executions, executed := t.hist.executed,
                            used := t.hist.used, requeues := t.hist.requeues, marker := t.hist.marker,
                            staged := t.hist.staged)
  {
  }

  /** Leases and early requests to cancel are counted as they are written; nothing else is
      but claims and resolutions. */
  lemma OthersAreRecorded(c: Config, s: Sys, a: Action)
    requires !a.Step? && !a.Claim? && !a.Resolve?
    ensures var h, r, t := s.hist, s.shared.row, Apply(c, s, a);
            t.hist ==
            if a.RequestCancel? then h.(earlyCancel := h.earlyCancel || (!Terminal(r.status) && !r.pending))
            else if a.Lease? && t.shared.row != r then
              h.(issued := h.issued + {a.token},
                 executable := if r.payload.None? then h.executable + {a.token} else h.executable)
            else h
  {
  }

  lemma ClaimsAreRecorded(s: Sys, tok: Token, lease: Time)
    requires OutboxInv(s)
    ensures var h, t := s.hist, DoClaim(s, tok, lease);
            t.hist == if t.shared.row == s.shared.row then h else h.(claims := h.claims[tok := s.now + lease])
  {
  }

  lemma ResolutionsAreRecorded(s: Sys, tok: Token, res: Resolution)
    ensures var h, t := s.hist, DoResolve(s, tok, res);
            t.hist == if t.shared.row == s.shared.row then h
                      else h.(resolved := h.resolved + {tok}, deliveries := h.deliveries + 1)
  {
  }
}
