/** The whole protocol: one run, its ledger row, the result table, any number of
    workers, and everything the environment can do in between.

    An execution is a sequence of actions; an action that is not enabled changes
    nothing, so every sequence is an execution. */
module Protocol {
  import opened Wrappers
  import opened Ledger
  import opened ResultSink
  import opened Worker

  /** Bookkeeping that no statement of the program reads. */
  datatype History = History(
    issued: set<Token>,          // every lease token ever issued
    executable: set<Token>,      // those issued while nothing was staged
    executed: set<Token>,        // those under which the executor was started
    executions: nat,             // how often it was started
    staged: Option<Payload>,     // the first value result_payload took
    marker: Option<Token>,       // the lease that made publication_pending durable
    publishes: nat,              // Publish calls
    used: set<Payload>,          // bytes passed to Publish, Verify and CompletePublished
    earlyCancel: bool,           // a cancel request arrived while not publication-pending
    requeues: nat,               // RetryVerification writes that queued the run again
    claims: map<Token, Time>,    // every callback claim with its expiry
    resolved: set<Token>,        // claims that were resolved
    deliveries: nat)             // resolutions

  datatype Sys = Sys(shared: Shared, workers: map<WorkerId, Worker>, now: Time, hist: History)

  datatype Action =
    | Tick(d: nat)
    | Lease(w: WorkerId, token: Token, publisher: bool, verifier: bool, fault: Fault)
    | Step(w: WorkerId, env: Env)
    | HeartbeatTick(w: WorkerId, fault: Fault, late: bool)
    | Crash(w: WorkerId)
    | RequestCancel
    | RecoverOrphan
    | SweepExhausted
    | LateMerge(row: SinkRow)                    // a MERGE reported as failed lands after all
    | ForeignMerge(row: SinkRow)                 // any other writer of the table
    | Claim(token: Token, lease: Time)
    | Resolve(token: Token, res: Resolution)

  const NO_HISTORY := History({}, {}, {}, 0, None, None, 0, {}, false, 0, map[], {}, 0)

  ghost predicate Init(s: Sys) {
    && (exists runId, resultId, hasUrl :: s.shared.row == Created(runId, resultId, s.now, hasUrl))
    && s.shared.inflight == {}
    && s.workers == map[] && s.hist == NO_HISTORY
  }

  // ---- steps ----

  /** The executor reports the run it was given: executeDurableRun copies both ids. */
  predicate OwnOutcome(r: Row, ex: Execution) {
    ex.Returned? ==> ex.out.content.runId == r.runId && ex.out.content.resultId == r.resultId
  }

  function WithRow(s: Sys, r: Row): Sys { s.(shared := s.shared.(row := r)) }

  function Record(h: History, w: Worker, before: Row, after: Row): History {
    var h' := h.(staged := if h.staged.None? then after.payload else h.staged);
    match w.pc
    case Start =>
      if w.staged.None? then h'.(executed := h.executed + {w.token}, executions := h.executions + 1) else h'
    case MarkPending => if after.pending && !before.pending then h'.(marker := Some(w.token)) else h'
    case Publish => (if w.payload.Some? then Use(h', w.payload.value) else h').(publishes := h.publishes + 1)
    case ReadBack => if w.payload.Some? then Use(h', w.payload.value) else h'
    case Verify => if w.payload.Some? then Use(h', w.payload.value) else h'
    case Complete => if w.payload.Some? then Use(h', w.payload.value) else h'
    case RetryLater =>
      if before.status.Running? && after.status.Queued? then h'.(requeues := h.requeues + 1) else h'
    case _ => h'
  }

  function Use(h: History, p: Payload): History { h.(used := h.used + {p}) }

  function DoLease(c: Config, s: Sys, a: Action): Sys
    requires a.Lease?
  {
    if a.w in s.workers || a.token in s.hist.issued || a.fault.LostRequest? then s
    else
      var u := LeaseNext(s.shared.row, a.w, a.token, s.now, c.lease, c.maxAttempts);
      if !u.reply.Wrote? then s
      else
        var h := s.hist.(issued := s.hist.issued + {a.token},
                         executable := if u.row.payload.None? then s.hist.executable + {a.token}
                                       else s.hist.executable);
        var s' := WithRow(s, u.row).(hist := h);
        if a.fault.LostReply? then s'
        else s'.(workers := s.workers[a.w := Leased(u.row, a.w, a.token, a.publisher, a.verifier)])
  }

  /** The shared state after worker `w` performs its next statement. */
  function After(c: Config, s: Sys, w: Worker, e: Env): Sys {
    var n := Advance(c, s.shared, w, s.now, e);
    s.(shared := n.shared, hist := Record(s.hist, w, s.shared.row, n.shared.row))
  }

  function DoStep(c: Config, s: Sys, id: WorkerId, e: Env): Sys {
    if id !in s.workers || !OwnOutcome(s.shared.row, e.execution) then s
    else
      var n := Advance(c, s.shared, s.workers[id], s.now, e);
      After(c, s, s.workers[id], e)
        .(workers := if n.worker.Some? then s.workers[id := n.worker.value] else s.workers - {id})
  }

  function DoBeat(c: Config, s: Sys, id: WorkerId, f: Fault, late: bool): Sys {
    if id !in s.workers || s.workers[id].leaseLost then s
    else
      var (r, w) := BeatOnce(c, s.shared.row, s.workers[id], s.now, f, late);
      WithRow(s, r).(workers := s.workers[id := w])
  }

  function DoCancel(s: Sys): Sys {
    WithRow(s, Cancel(s.shared.row, s.now))
      .(hist := s.hist.(earlyCancel := s.hist.earlyCancel
                                       || (!Terminal(s.shared.row.status) && !s.shared.row.pending)))
  }

  function DoClaim(s: Sys, tok: Token, lease: Time): Sys {
    var u := ClaimNextCallback(s.shared.row, tok, s.now, lease);
    if tok in s.hist.claims || !u.reply.Wrote? then s
    else WithRow(s, u.row).(hist := s.hist.(claims := s.hist.claims[tok := s.now + lease]))
  }

  /** Any holder of any claim may try to resolve it at any time, also repeatedly. */
  function DoResolve(s: Sys, tok: Token, res: Resolution): Sys {
    var u := ResolveCallback(s.shared.row, tok, res, s.now);
    if tok !in s.hist.claims || !u.reply.Wrote? then s
    else WithRow(s, u.row).(hist := s.hist.(resolved := s.hist.resolved + {tok}, deliveries := s.hist.deliveries + 1))
  }

  function Apply(c: Config, s: Sys, a: Action): Sys {
    match a
    case Tick(d) => s.(now := s.now + d)
    case Lease(_, _, _, _, _) => DoLease(c, s, a)
    case Step(id, e) => DoStep(c, s, id, e)
    case HeartbeatTick(id, f, late) => DoBeat(c, s, id, f, late)
    case Crash(id) => s.(workers := s.workers - {id})
    case RequestCancel => DoCancel(s)
    case RecoverOrphan => WithRow(s, RecoverCanceled(s.shared.row, s.now))
    case SweepExhausted => WithRow(s, FailExhausted(s.shared.row, s.now, c.maxAttempts))
    case LateMerge(row) =>
      if row in s.shared.inflight then
        s.(shared := s.shared.(table := Merge(s.shared.table, row), inflight := s.shared.inflight - {row}))
      else s
    case ForeignMerge(row) => s.(shared := s.shared.(table := Merge(s.shared.table, row)))
    case Claim(tok, lease) => DoClaim(s, tok, lease)
    case Resolve(tok, res) => DoResolve(s, tok, res)
  }

  function Run(c: Config, s: Sys, actions: seq<Action>): Sys
    decreases |actions|
  {
    if actions == [] then s else Run(c, Apply(c, s, actions[0]), actions[1..])
  }

  // ---- the inductive invariant ----

  predicate Current(s: Sys, w: Worker) { s.shared.row.token == Some(w.token) }

  predicate IsStaged(s: Sys, w: Worker) {
    && w.execution.Returned? && w.payload == Some(Payload(w.execution.out))
    && s.hist.staged == w.payload
  }

  predicate InSink(s: Sys, p: Payload) {
    Classify(s.shared.table, RowFor(p.decoded, p)) == Identical
  }

  /** Outcomes that can be staged for this run. */
  predicate Stageable(r: Row, out: Outcome) {
    && Sealed(out) && out.content.runId == r.runId && out.content.resultId == r.resultId
    && out.content.terminalState != MALFUNCTION
  }

  /** Lease columns against status, and terminal rows are at rest. */
  predicate LeaseInv(s: Sys) {
    var r := s.shared.row;
    && (r.status.Running? ==> r.workerId.Some? && r.token.Some? && r.expires.Some? && r.retryAt.None?)
    && (!r.status.Running? ==> r.workerId.None? && r.token.None? && r.expires.None?)
    && (r.token.Some? ==> r.token.value in s.hist.issued)
    && (Terminal(r.status) ==> !r.pending && r.completedAt.Some?)
    && (r.status.Queued? && r.cancelRequested ==> r.pending)
    && (r.status.Queued? && r.payload.None? ==> r.attempt == 0)
  }

  /** Staged bytes: written once, well formed, and present before the cutoff. */
  predicate StagingInv(s: Sys) {
    var r := s.shared.row;
    && r.payload == s.hist.staged
    && (!Terminal(r.status) ==> r.response == r.payload)
    && (r.payload.Some? ==> Stageable(r, r.payload.value.decoded))
    && (r.pending ==> r.payload.Some?)
    && (forall p :: p in s.hist.used ==> s.hist.staged == Some(p))
    && (forall x :: x in s.shared.inflight ==>
        s.hist.staged.Some? && x == RowFor(s.hist.staged.value.decoded, s.hist.staged.value))
    && (r.status.Completed? ==>
          && r.payload.Some? && r.response == r.payload && r.failure.None?
          && r.completion == Some(CompletionOf(r.payload.value.decoded))
          && r.terminalState == r.payload.value.decoded.content.terminalState
          && AuthoritativeRef(r.payload.value.decoded)
          && (Placeholder(r.payload.value.decoded) || InSink(s, r.payload.value)))
    && (!Terminal(r.status) ==> r.completion.None? && r.failure.None?)
  }

  /** The cutoff: who made publication pending, and what that excludes. */
  predicate CutoffInv(s: Sys) {
    var r := s.shared.row;
    && (r.pending ==> s.hist.marker.Some?)
    && (!Terminal(r.status) && !r.pending ==> s.hist.marker.None?)
    && (r.status.Canceled? ==> s.hist.marker.None?)
    && (s.hist.marker.Some? ==> s.hist.marker.value in s.hist.issued)
    && s.hist.publishes <= 1 && (s.hist.marker.None? ==> s.hist.publishes == 0)
    && (s.hist.marker.None? ==> s.shared.inflight == {})
    && (s.hist.earlyCancel ==> r.cancelRequested && s.hist.marker.None?)
    && (s.hist.earlyCancel && r.status.Completed? ==> r.payload.Some? && Placeholder(r.payload.value.decoded))
  }

  /** Bounds on executions and on verification requeues. */
  predicate CountInv(c: Config, s: Sys) {
    var r := s.shared.row;
    && s.hist.executed <= s.hist.executable <= s.hist.issued
    && s.hist.executions == |s.hist.executed|
    && |s.hist.executable| <= r.attempt
    && (|s.hist.executable| <= c.maxAttempts || s.hist.executable == {})
    && (!Terminal(r.status) && r.payload.None? ==> r.attempt == |s.hist.executable|)
    && (!Terminal(r.status) ==> r.verifications == s.hist.requeues)
    && (s.hist.requeues < c.maxVerifications || s.hist.requeues == 0)
  }

  /** What each worker's position and snapshot say about the row. */
  predicate WorkerInv(s: Sys, w: Worker) {
    && w.token in s.hist.issued
    && (w.staged.Some? ==> s.hist.staged == w.staged)
    && (w.staged.None? ==> w.token in s.hist.executable)
    && (w.pending ==> s.hist.marker.Some? && s.hist.staged.Some?)
    && (Current(s, w) ==> s.shared.row.pending == w.pending && s.shared.row.workerId == Some(w.id))
    && (s.hist.marker == Some(w.token) ==> w.pending)
    && PcInv(s, w)
  }

  predicate PcInv(s: Sys, w: Worker) {
    match w.pc
    case Start =>
      && w.execution.NotRun? && w.payload.None?
      && (w.staged.None? ==> w.token !in s.hist.executed && !w.pending)
      && s.hist.marker != Some(w.token)
    case Executing => w.staged.None? && !w.pending && w.payload.None?
    case Decide =>
      && OwnOutcome(s.shared.row, w.execution)
      && (w.staged.None? ==> !w.pending && w.payload.None?)
      && (w.staged.Some? ==> IsStaged(s, w))
    case MarkCancel => !w.pending
    case FailRun => !w.pending
    case FailMalfunction => !w.pending
    case Stage =>
      && !w.pending && w.execution.Returned? && w.payload == Some(Payload(w.execution.out))
      && Stageable(s.shared.row, w.execution.out)
    case Probe => !w.pending
    case FailUnavailable => !w.pending && IsStaged(s, w)
    case Fence => !w.pending && IsStaged(s, w)
    case MarkPending => !w.pending && IsStaged(s, w)
    case Publish => w.pending && IsStaged(s, w) && s.hist.marker == Some(w.token) && s.hist.publishes == 0
    case ReadBack => w.pending && IsStaged(s, w)
    case Verify => w.pending && IsStaged(s, w)
    case RetryLater => w.pending && IsStaged(s, w)
    case FailConflict => w.pending && IsStaged(s, w)
    case Complete =>
      && IsStaged(s, w)
      && (Placeholder(w.execution.out) || (w.pending && InSink(s, w.payload.value)))
  }

  predicate WorkersInv(s: Sys) {
    && (forall i :: i in s.workers ==> s.workers[i].id == i && WorkerInv(s, s.workers[i]))
    && (forall i, j :: i in s.workers && j in s.workers && i != j ==> s.workers[i].token != s.workers[j].token)
  }

  /** The outbox columns against the run's status and the claims handed out. */
  predicate OutboxInv(s: Sys) {
    var r := s.shared.row; var o := r.outbox;
    && (!o.hasUrl ==> o.state.None?)
    && (o.hasUrl ==> o.state.Some?)
    && (o.state == Some(Waiting) <==> o.hasUrl && !Terminal(r.status))
    && (o.state == Some(Delivering) <==> o.token.Some?)
    && (o.token.Some? <==> o.expires.Some?)
    && (o.token.Some? ==> o.token.value in s.hist.claims && o.token.value !in s.hist.resolved
                          && s.hist.claims[o.token.value] == o.expires.value)
    && s.hist.resolved <= s.hist.claims.Keys
    && s.hist.deliveries == |s.hist.resolved| == o.attempt
    && (forall k :: k in s.hist.claims && k !in s.hist.resolved && o.token != Some(k) ==> s.hist.claims[k] <= s.now)
  }

  /** The part of the invariant that does not mention the workers. */
  predicate RowInv(c: Config, s: Sys) {
    LeaseInv(s) && StagingInv(s) && CutoffInv(s) && CountInv(c, s) && OutboxInv(s)
  }

  predicate Inv(c: Config, s: Sys) { RowInv(c, s) && WorkersInv(s) }

  lemma InitInv(c: Config, s: Sys)
    requires Init(s)
    ensures Inv(c, s)
  {
  }
}
