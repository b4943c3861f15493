/** Every action keeps the invariant. A statement of one worker is split into what
    it does to the row (RowInv), to that worker, and to everyone else (Frame). */
module Preservation {
  import opened Wrappers
  import opened Ledger
  import opened ResultSink
  import opened Worker
  import opened Protocol

  // ---- what a step may not disturb for the others ----

  /** The change from s to s' was made under lease `tok`, or by the environment
      when `tok` is None: holders of other leases keep their view. */
  predicate Frame(s: Sys, s': Sys, tok: Option<Token>) {
    var r := s.shared.row; var r' := s'.shared.row;
    && r'.runId == r.runId && r'.resultId == r.resultId
    && s.hist.issued <= s'.hist.issued && s.hist.executable <= s'.hist.executable
    && (forall k :: k in s'.hist.executed && k !in s.hist.executed ==> tok == Some(k))
    && (s.hist.staged.Some? ==> s'.hist.staged == s.hist.staged)
    && (s'.hist.marker == s.hist.marker || (s.hist.marker.None? && tok.Some? && s'.hist.marker == tok))
    && (s'.hist.publishes == s.hist.publishes || (tok.Some? && s.hist.marker == tok))
    && ((r'.token == r.token && r'.pending == r.pending && r'.workerId == r.workerId)
        || r'.token.None? || (tok.Some? && r'.token == tok))
    && (s.hist.staged.Some? && InSink(s, s.hist.staged.value) ==> InSink(s', s.hist.staged.value))
  }

  lemma OtherKeeps(s: Sys, s': Sys, tok: Option<Token>, w: Worker)
    requires Frame(s, s', tok) && WorkerInv(s, w) && tok != Some(w.token)
    ensures WorkerInv(s', w)
  {
  }

  lemma EnvironmentKeeps(s: Sys, s': Sys)
    requires WorkersInv(s) && Frame(s, s', None) && s'.workers == s.workers
    ensures WorkersInv(s')
  {
    forall i | i in s'.workers ensures s'.workers[i].id == i && WorkerInv(s', s'.workers[i]) {
      OtherKeeps(s, s', None, s.workers[i]);
    }
  }

  // ---- the environment ----

  lemma TickKeeps(c: Config, s: Sys, d: nat)
    requires Inv(c, s)
    ensures Inv(c, Apply(c, s, Tick(d)))
  {
    var s' := Apply(c, s, Tick(d));
    assert s' == s.(now := s.now + d);
    EnvironmentKeeps(s, s');
  }

  lemma CrashKeeps(c: Config, s: Sys, id: WorkerId)
    requires Inv(c, s)
    ensures Inv(c, s.(workers := s.workers - {id}))
  {
    var s' := s.(workers := s.workers - {id});
    forall i | i in s'.workers ensures s'.workers[i].id == i && WorkerInv(s', s'.workers[i]) {
      OtherKeeps(s, s', None, s.workers[i]);
    }
  }

  lemma CancelKeeps(c: Config, s: Sys)
    requires Inv(c, s)
    ensures Inv(c, DoCancel(s))
  {
    EnvironmentKeeps(s, DoCancel(s));
  }

  lemma RecoverKeeps(c: Config, s: Sys)
    requires Inv(c, s)
    ensures Inv(c, WithRow(s, RecoverCanceled(s.shared.row, s.now)))
  {
    EnvironmentKeeps(s, WithRow(s, RecoverCanceled(s.shared.row, s.now)));
  }

  lemma SweepKeeps(c: Config, s: Sys)
    requires Inv(c, s)
    ensures Inv(c, WithRow(s, FailExhausted(s.shared.row, s.now, c.maxAttempts)))
  {
    EnvironmentKeeps(s, WithRow(s, FailExhausted(s.shared.row, s.now, c.maxAttempts)));
  }

  lemma MergeKeeps(c: Config, s: Sys, row: SinkRow, inflight: set<SinkRow>)
    requires Inv(c, s) && inflight <= s.shared.inflight
    ensures Inv(c, s.(shared := s.shared.(table := Merge(s.shared.table, row), inflight := inflight)))
  {
    var s' := s.(shared := s.shared.(table := Merge(s.shared.table, row), inflight := inflight));
    forall p: Payload | InSink(s, p) ensures InSink(s', p) {
      IdenticalIsStable(s.shared.table, RowFor(p.decoded, p), row);
    }
    EnvironmentKeeps(s, s');
  }

  lemma ClaimKeeps(c: Config, s: Sys, tok: Token, lease: Time)
    requires Inv(c, s)
    ensures Inv(c, DoClaim(s, tok, lease))
  {
    EnvironmentKeeps(s, DoClaim(s, tok, lease));
  }

  /** A resolution touches the outbox columns and its own books only. */
  lemma ResolveResolves(s: Sys, tok: Token, res: Resolution)
    requires OutboxInv(s)
    ensures var s' := DoResolve(s, tok, res); OutboxInv(s') && OutboxOnly(s, s')
  {
  }

  predicate OutboxOnly(s: Sys, s': Sys) {
    && s'.shared.row.(outbox := s.shared.row.outbox) == s.shared.row
    && s' == WithRow(s, s'.shared.row).(hist := s.hist.(resolved := s'.hist.resolved, deliveries := s'.hist.deliveries))
  }

  lemma OutboxOnlyKeeps(c: Config, s: Sys, s': Sys)
    requires RowInv(c, s) && OutboxInv(s') && OutboxOnly(s, s')
    ensures RowInv(c, s') && Frame(s, s', None)
  {
  }

  lemma ResolveKeeps(c: Config, s: Sys, tok: Token, res: Resolution)
    requires Inv(c, s)
    ensures Inv(c, DoResolve(s, tok, res))
  {
    ResolveResolves(s, tok, res);
    OutboxOnlyKeeps(c, s, DoResolve(s, tok, res));
    EnvironmentKeeps(s, DoResolve(s, tok, res));
  }

  // ---- leases and heartbeats ----

  /** The row under a fresh lease, and the token in the books. */
  predicate Granted(c: Config, s: Sys, s': Sys, w: WorkerId, tok: Token) {
    var r := s.shared.row;
    && Leasable(r, s.now, c.maxAttempts) && tok !in s.hist.issued
    && s'.shared == s.shared.(row := r.(status := Running, workerId := Some(w), token := Some(tok),
                                        expires := Some(s.now + c.lease), attempt := r.attempt + 1,
                                        retryAt := None))
    && s'.now == s.now
    && s'.hist == s.hist.(issued := s.hist.issued + {tok},
                          executable := if r.payload.None? then s.hist.executable + {tok} else s.hist.executable)
  }

  lemma LeaseGrants(c: Config, s: Sys, a: Action)
    requires a.Lease?
    ensures var s' := DoLease(c, s, a);
            s' == s || (Granted(c, s, s', a.w, a.token) && a.w !in s.workers
                        && s'.workers == if a.fault.LostReply? then s.workers
                                         else s.workers[a.w :=
                                             Leased(s'.shared.row, a.w, a.token, a.publisher, a.verifier)])
  {
  }

  lemma GrantedKeepsRow(c: Config, s: Sys, s': Sys, w: WorkerId, tok: Token)
    requires RowInv(c, s) && Granted(c, s, s', w, tok)
    ensures LeaseInv(s') && StagingInv(s') && CutoffInv(s') && OutboxInv(s')
  {
  }

  lemma GrantedKeepsCounts(c: Config, s: Sys, s': Sys, w: WorkerId, tok: Token)
    requires RowInv(c, s) && Granted(c, s, s', w, tok)
    ensures CountInv(c, s')
  {
  }

  lemma GrantedKeepsFrame(c: Config, s: Sys, s': Sys, w: WorkerId, tok: Token)
    requires RowInv(c, s) && Granted(c, s, s', w, tok)
    ensures Frame(s, s', Some(tok))
  {
  }

  /** The new worker starts with a snapshot that fits the row. */
  lemma GrantedFits(c: Config, s: Sys, s': Sys, w: WorkerId, tok: Token, publisher: bool, verifier: bool)
    requires RowInv(c, s) && Granted(c, s, s', w, tok)
    ensures WorkerInv(s', Leased(s'.shared.row, w, tok, publisher, verifier))
  {
  }

  lemma GrantedKeepsOthers(c: Config, s: Sys, s': Sys, w: WorkerId, tok: Token)
    requires Inv(c, s) && Granted(c, s, s', w, tok)
    ensures forall i :: i in s.workers ==> s.workers[i].id == i && s.workers[i].token != tok
    ensures forall i :: i in s.workers ==> WorkerInv(s', s.workers[i])
  {
    GrantedKeepsFrame(c, s, s', w, tok);
    forall i | i in s.workers ensures WorkerInv(s', s.workers[i]) && s.workers[i].token != tok {
      OtherKeeps(s, s', Some(tok), s.workers[i]);
    }
  }

  lemma LeaseKeeps(c: Config, s: Sys, a: Action)
    requires Inv(c, s) && a.Lease?
    ensures Inv(c, DoLease(c, s, a))
  {
    LeaseGrants(c, s, a);
    var s' := DoLease(c, s, a);
    if s' != s {
      GrantedKeepsRow(c, s, s', a.w, a.token);
      GrantedKeepsCounts(c, s, s', a.w, a.token);
      GrantedKeepsOthers(c, s, s', a.w, a.token);
      GrantedFits(c, s, s', a.w, a.token, a.publisher, a.verifier);
    }
  }

  /** A heartbeat only moves the expiry of a running row. */
  lemma ExtendedKeeps(c: Config, s: Sys, t: Time, tok: Option<Token>)
    requires RowInv(c, s) && s.shared.row.status.Running?
    ensures RowInv(c, WithRow(s, s.shared.row.(expires := Some(t))))
    ensures Frame(s, WithRow(s, s.shared.row.(expires := Some(t))), tok)
  {
  }

  lemma FlagKeeps(s: Sys, s': Sys, w: Worker, w': Worker)
    requires Frame(s, s', None) && WorkerInv(s, w)
    requires w' == w.(cancelSeen := w'.cancelSeen, leaseLost := w'.leaseLost)
    ensures WorkerInv(s', w')
  {
    OtherKeeps(s, s', None, w);
  }

  /** A beat of worker `id`: at most an extended lease and that worker's flags. */
  predicate Beaten(c: Config, s: Sys, s': Sys, id: WorkerId) {
    && s' == WithRow(s, s'.shared.row).(workers := s'.workers)
    && (s'.shared.row == s.shared.row
        || (s.shared.row.status.Running? && s'.shared.row == s.shared.row.(expires := Some(s.now + c.lease))))
    && id in s.workers && id in s'.workers && s'.workers == s.workers[id := s'.workers[id]]
    && s'.workers[id] == s.workers[id].(cancelSeen := s'.workers[id].cancelSeen, leaseLost := s'.workers[id].leaseLost)
  }

  lemma BeatBeats(c: Config, s: Sys, id: WorkerId, f: Fault, late: bool)
    ensures DoBeat(c, s, id, f, late) == s || Beaten(c, s, DoBeat(c, s, id, f, late), id)
  {
  }

  lemma BeatenKeeps(c: Config, s: Sys, s': Sys, id: WorkerId)
    requires Inv(c, s) && Beaten(c, s, s', id)
    ensures Inv(c, s')
  {
    var base := WithRow(s, s'.shared.row);
    if base != s {
      ExtendedKeeps(c, s, s.now + c.lease, None);
    }
    assert RowInv(c, base) && Frame(s, base, None);
    BeatKeepsWorkers(s, base, s', id);
  }

  lemma BeatKeeps(c: Config, s: Sys, id: WorkerId, f: Fault, late: bool)
    requires Inv(c, s)
    ensures Inv(c, DoBeat(c, s, id, f, late))
  {
    BeatBeats(c, s, id, f, late);
    if DoBeat(c, s, id, f, late) != s {
      BeatenKeeps(c, s, DoBeat(c, s, id, f, late), id);
    }
  }

  lemma BeatKeepsWorkers(s: Sys, base: Sys, s': Sys, id: WorkerId)
    requires WorkersInv(s) && Frame(s, base, None) && s' == base.(workers := s'.workers)
    requires id in s.workers && id in s'.workers && s'.workers == s.workers[id := s'.workers[id]]
    requires s'.workers[id]
            == s.workers[id].(cancelSeen := s'.workers[id].cancelSeen, leaseLost := s'.workers[id].leaseLost)
    ensures WorkersInv(s')
  {
    forall i | i in s'.workers ensures WorkerInv(s', s'.workers[i]) {
      FlagKeeps(s, base, s.workers[i], s'.workers[i]);
      MovesAlone(base, s', s'.workers[i]);
    }
  }

  // ---- a worker's statements ----

  predicate Ready(c: Config, s: Sys, w: Worker, e: Env) {
    RowInv(c, s) && WorkerInv(s, w) && OwnOutcome(s.shared.row, e.execution)
  }

  function NextWorker(c: Config, s: Sys, w: Worker, e: Env): Option<Worker> {
    Advance(c, s.shared, w, s.now, e).worker
  }

  /** One statement of `w` keeps the row's part, leaves `w` consistent at its next
      position, and stays inside the frame of its lease. */
  predicate Kept(c: Config, s: Sys, w: Worker, e: Env) {
    && RowInv(c, After(c, s, w, e))
    && Frame(s, After(c, s, w, e), Some(w.token))
    && KeptSelf(c, s, w, e)
  }

  predicate KeptSelf(c: Config, s: Sys, w: Worker, e: Env) {
    var n := NextWorker(c, s, w, e);
    n.Some? ==> n.value.id == w.id && n.value.token == w.token && WorkerInv(After(c, s, w, e), n.value)
  }

  /** A terminal transition out of `running` in one statement. */
  predicate Ended(s: Sys, r': Row) {
    var r := s.shared.row;
    && r.status.Running? && Terminal(r'.status)
    && r'.runId == r.runId && r'.resultId == r.resultId && r'.attempt == r.attempt
    && r'.cancelRequested == r.cancelRequested && r'.payload == r.payload
    && !r'.pending && r'.workerId.None? && r'.token.None? && r'.expires.None? && r'.completedAt.Some?
    && r'.outbox == (if r.outbox.hasUrl then r.outbox.(state := Some(Pending), nextAt := s.now) else r.outbox)
    && (r'.status.Canceled? ==> s.hist.marker.None?)
    && (r'.status.Completed? ==> CompletedFrom(s, r'))
  }

  predicate CompletedFrom(s: Sys, r': Row) {
    && r'.payload.Some? && r'.response == r'.payload && r'.failure.None?
    && r'.completion == Some(CompletionOf(r'.payload.value.decoded))
    && r'.terminalState == r'.payload.value.decoded.content.terminalState
    && AuthoritativeRef(r'.payload.value.decoded)
    && (Placeholder(r'.payload.value.decoded) || (s.hist.marker.Some? && InSink(s, r'.payload.value)))
  }

  /** The books differ at most in the bytes handed to the sink. */
  predicate SameBooks(h: History, h': History) {
    h'.(used := h.used) == h && forall p :: p in h'.used ==> h.staged == Some(p)
  }

  lemma EndedKeeps(c: Config, s: Sys, r': Row, h': History, tok: Option<Token>)
    requires RowInv(c, s) && Ended(s, r') && SameBooks(s.hist, h')
    ensures RowInv(c, WithRow(s, r').(hist := h')) && Frame(s, WithRow(s, r').(hist := h'), tok)
  {
    assert StagingInv(WithRow(s, r').(hist := h'));
    assert CutoffInv(WithRow(s, r').(hist := h'));
    assert CountInv(c, WithRow(s, r').(hist := h'));
    assert OutboxInv(WithRow(s, r').(hist := h'));
  }

  /** After staging, the next position fits the snapshot. */
  lemma RouteFits(s: Sys, w: Worker, out: Outcome)
    requires IsStaged(s, w) && out == w.execution.out
    ensures PcInv(s, w.(pc := Route(w, out)))
  {
  }

  /** The executor is about to run under this lease: only the books change. */
  predicate Started(s: Sys, s': Sys, w: Worker) {
    s' == s.(hist := if w.staged.Some? then s.hist
                     else s.hist.(executed := s.hist.executed + {w.token}, executions := s.hist.executions + 1))
  }

  lemma StartStarts(c: Config, s: Sys, w: Worker, e: Env)
    requires Ready(c, s, w, e) && w.pc.Start?
    ensures Started(s, After(c, s, w, e), w)
    ensures NextWorker(c, s, w, e) == Some(if w.staged.None? then w.(pc := Executing)
                                           else w.(execution := Returned(w.staged.value.decoded), payload := w.staged,
                                               pc := Decide))
  {
  }

  lemma StartedKeepsRow(c: Config, s: Sys, s': Sys, w: Worker)
    requires RowInv(c, s) && WorkerInv(s, w) && w.pc.Start? && Started(s, s', w)
    ensures RowInv(c, s') && Frame(s, s', Some(w.token))
  {
  }

  lemma StartedFits(c: Config, s: Sys, s': Sys, w: Worker)
    requires RowInv(c, s) && WorkerInv(s, w) && w.pc.Start? && Started(s, s', w)
    ensures w.staged.None? ==> WorkerInv(s', w.(pc := Executing))
    ensures w.staged.Some? ==> WorkerInv(s',
            w.(execution := Returned(w.staged.value.decoded), payload := w.staged, pc := Decide))
  {
  }

  lemma StartKeeps(c: Config, s: Sys, w: Worker, e: Env)
    requires Ready(c, s, w, e) && w.pc.Start?
    ensures Kept(c, s, w, e)
  {
    StartStarts(c, s, w, e);
    StartedKeepsRow(c, s, After(c, s, w, e), w);
    StartedFits(c, s, After(c, s, w, e), w);
  }

  lemma ExecutingKeeps(c: Config, s: Sys, w: Worker, e: Env)
    requires Ready(c, s, w, e) && w.pc.Executing?
    ensures Kept(c, s, w, e)
  {
    assert RowInv(c, After(c, s, w, e));
  }

  lemma DecideFits(c: Config, s: Sys, w: Worker, e: Env)
    requires Ready(c, s, w, e) && w.pc.Decide?
    ensures KeptSelf(c, s, w, e)
  {
    if w.staged.Some? {
      RouteFits(s, w, w.execution.out);
    }
  }

  lemma DecideKeeps(c: Config, s: Sys, w: Worker, e: Env)
    requires Ready(c, s, w, e) && w.pc.Decide?
    ensures Kept(c, s, w, e)
  {
    assert After(c, s, w, e) == s;
    DecideFits(c, s, w, e);
  }

  lemma CancelEnds(c: Config, s: Sys, w: Worker, e: Env)
    requires Ready(c, s, w, e) && w.pc.MarkCancel?
    ensures NextWorker(c, s, w, e).None?
    ensures After(c, s, w, e) == s || (Ended(s, After(c, s, w, e).shared.row)
                                       && After(c, s, w, e) == WithRow(s, After(c, s, w, e).shared.row))
  {
  }

  lemma FailEnds(c: Config, s: Sys, w: Worker, e: Env)
    requires Ready(c, s, w, e) && (w.pc.FailRun? || w.pc.FailConflict?)
    ensures NextWorker(c, s, w, e).None?
    ensures After(c, s, w, e) == s || (Ended(s, After(c, s, w, e).shared.row)
                                       && After(c, s, w, e) == WithRow(s, After(c, s, w, e).shared.row))
  {
  }

  lemma FailOutcomeEnds(c: Config, s: Sys, w: Worker, e: Env)
    requires Ready(c, s, w, e) && (w.pc.FailMalfunction? || w.pc.FailUnavailable?)
    ensures NextWorker(c, s, w, e).None?
    ensures After(c, s, w, e) == s || (Ended(s, After(c, s, w, e).shared.row)
                                       && After(c, s, w, e) == WithRow(s, After(c, s, w, e).shared.row))
  {
  }

  /** Failing and canceling statements end the run or change nothing. */
  lemma AbortEnds(c: Config, s: Sys, w: Worker, e: Env)
    requires Ready(c, s, w, e)
    requires w.pc.MarkCancel? || w.pc.FailRun? || w.pc.FailMalfunction? || w.pc.FailUnavailable? || w.pc.FailConflict?
    ensures NextWorker(c, s, w, e).None?
    ensures After(c, s, w, e) == s || (Ended(s, After(c, s, w, e).shared.row)
                                       && After(c, s, w, e) == WithRow(s, After(c, s, w, e).shared.row))
  {
    if w.pc.MarkCancel? {
      CancelEnds(c, s, w, e);
    } else if w.pc.FailRun? || w.pc.FailConflict? {
      FailEnds(c, s, w, e);
    } else {
      FailOutcomeEnds(c, s, w, e);
    }
  }

  lemma AbortKeeps(c: Config, s: Sys, w: Worker, e: Env)
    requires Ready(c, s, w, e)
    requires w.pc.MarkCancel? || w.pc.FailRun? || w.pc.FailMalfunction? || w.pc.FailUnavailable? || w.pc.FailConflict?
    ensures Kept(c, s, w, e)
  {
    AbortEnds(c, s, w, e);
    var s' := After(c, s, w, e);
    if s' != s {
      EndedKeeps(c, s, s'.shared.row, s.hist, Some(w.token));
      assert s' == s'.(hist := s.hist);
    }
  }

  /** The staged bytes are written, and recorded. */
  predicate Staged(s: Sys, s': Sys, w: Worker) {
    && s.shared.row.status.Running? && s.shared.row.response.None?
    && s' == WithRow(s, s.shared.row.(response := w.payload, payload := w.payload)).(hist :=
        s.hist.(staged := w.payload))
  }

  lemma StageStages(c: Config, s: Sys, w: Worker, e: Env)
    requires Ready(c, s, w, e) && w.pc.Stage?
    ensures After(c, s, w, e) == s || Staged(s, After(c, s, w, e), w)
  {
  }

  lemma StageGoes(c: Config, s: Sys, w: Worker, e: Env)
    requires Ready(c, s, w, e) && w.pc.Stage?
    ensures var n := NextWorker(c, s, w, e);
            n.Some? ==> n.value == w.(pc := n.value.pc) &&
                        (n.value.pc.Probe? ||
                            (n.value.pc == Route(w, w.execution.out) && Staged(s, After(c, s, w, e), w)))
  {
  }

  lemma StagedKeepsRow(c: Config, s: Sys, s': Sys, w: Worker)
    requires RowInv(c, s) && WorkerInv(s, w) && w.pc.Stage? && Staged(s, s', w)
    ensures RowInv(c, s') && Frame(s, s', Some(w.token))
  {
  }

  lemma StagedFits(c: Config, s: Sys, s': Sys, w: Worker)
    requires RowInv(c, s) && WorkerInv(s, w) && w.pc.Stage? && Staged(s, s', w)
    ensures WorkerInv(s', w.(pc := Route(w, w.execution.out)))
  {
    RouteFits(s', w, w.execution.out);
  }

  lemma RefusedFits(c: Config, s: Sys, s': Sys, w: Worker)
    requires RowInv(c, s) && WorkerInv(s, w) && w.pc.Stage? && (s' == s || Staged(s, s', w))
    ensures WorkerInv(s', w.(pc := Probe))
  {
  }

  lemma StageKeeps(c: Config, s: Sys, w: Worker, e: Env)
    requires Ready(c, s, w, e) && w.pc.Stage?
    ensures Kept(c, s, w, e)
  {
    var s' := After(c, s, w, e);
    StageStages(c, s, w, e);
    StageGoes(c, s, w, e);
    RefusedFits(c, s, s', w);
    if Staged(s, s', w) {
      StagedKeepsRow(c, s, s', w);
      StagedFits(c, s, s', w);
    }
  }

  lemma ProbeBeats(c: Config, s: Sys, w: Worker, e: Env)
    requires Ready(c, s, w, e) && w.pc.Probe?
    ensures After(c, s, w, e) == s || (s.shared.row.status.Running? && After(c, s, w, e)
                                       == WithRow(s, s.shared.row.(expires := Some(s.now + c.lease))))
    ensures var n := NextWorker(c, s, w, e);
            n.Some? ==> n.value == w.(pc := n.value.pc)
                        && n.value.pc.MarkCancel?
  {
  }

  lemma CutoffBeats(c: Config, s: Sys, w: Worker, e: Env)
    requires Ready(c, s, w, e) && w.pc.Fence?
    ensures After(c, s, w, e) == s || (s.shared.row.status.Running? && After(c, s, w, e)
                                       == WithRow(s, s.shared.row.(expires := Some(s.now + c.lease))))
    ensures var n := NextWorker(c, s, w, e);
            n.Some? ==> n.value == w.(pc := n.value.pc)
                        && (n.value.pc.MarkCancel? || n.value.pc.MarkPending?)
  {
  }

  /** The two synchronous heartbeats: after a refused staging and before the cutoff. */
  lemma FenceBeats(c: Config, s: Sys, w: Worker, e: Env)
    requires Ready(c, s, w, e) && (w.pc.Probe? || w.pc.Fence?)
    ensures After(c, s, w, e) == s || (s.shared.row.status.Running? && After(c, s, w, e)
                                       == WithRow(s, s.shared.row.(expires := Some(s.now + c.lease))))
    ensures var n := NextWorker(c, s, w, e);
            n.Some? ==> n.value == w.(pc := n.value.pc)
                        && (n.value.pc.MarkCancel? || (n.value.pc.MarkPending? && w.pc.Fence?))
  {
    if w.pc.Probe? {
      ProbeBeats(c, s, w, e);
    } else {
      CutoffBeats(c, s, w, e);
    }
  }

  lemma FencedFits(s: Sys, s': Sys, w: Worker, pc: Pc)
    requires WorkerInv(s, w) && Frame(s, s', None)
    requires (w.pc.Probe? && pc.MarkCancel?) || (w.pc.Fence? && (pc.MarkCancel? || pc.MarkPending?))
    ensures WorkerInv(s', w.(pc := pc))
  {
    OtherKeeps(s, s', None, w);
  }

  lemma FenceKeeps(c: Config, s: Sys, w: Worker, e: Env)
    requires Ready(c, s, w, e) && (w.pc.Probe? || w.pc.Fence?)
    ensures Kept(c, s, w, e)
  {
    FenceBeats(c, s, w, e);
    FencedKeeps(c, s, After(c, s, w, e), w);
    if NextWorker(c, s, w, e).Some? {
      FencedFits(s, After(c, s, w, e), w, NextWorker(c, s, w, e).value.pc);
    }
  }

  lemma FencedKeeps(c: Config, s: Sys, s': Sys, w: Worker)
    requires RowInv(c, s)
    requires s' == s || (s.shared.row.status.Running? &&
            s' == WithRow(s, s.shared.row.(expires := Some(s.now + c.lease))))
    ensures RowInv(c, s') && Frame(s, s', None) && Frame(s, s', Some(w.token))
  {
    if s' != s {
      ExtendedKeeps(c, s, s.now + c.lease, Some(w.token));
      ExtendedKeeps(c, s, s.now + c.lease, None);
    }
  }

  /** The cutoff: publication becomes pending under this worker's lease. */
  lemma MarkedKeeps(c: Config, s: Sys, w: Worker)
    requires RowInv(c, s) && WorkerInv(s, w) && w.pc.MarkPending? && Current(s, w)
    requires !s.shared.row.cancelRequested && !s.shared.row.pending && s.shared.row.status.Running?
    ensures var s' := WithRow(s, s.shared.row.(pending := true, retryAt := None)).(hist :=
            s.hist.(marker := Some(w.token)));
            RowInv(c, s') && Frame(s, s', Some(w.token)) && WorkerInv(s', w.(pending := true, pc := Publish))
  {
  }

  lemma MarkPendingMarks(c: Config, s: Sys, w: Worker, e: Env)
    requires Ready(c, s, w, e) && w.pc.MarkPending?
    ensures var s' := After(c, s, w, e); var n := NextWorker(c, s, w, e);
            || (s' == s && n.None?)
            || (&& Current(s, w) && !s.shared.row.cancelRequested && !s.shared.row.pending
                && s.shared.row.status.Running?
                && s' == WithRow(s, s.shared.row.(pending := true, retryAt := None)).(hist :=
                    s.hist.(marker := Some(w.token)))
                && (n.Some? ==> n.value == w.(pending := true, pc := Publish)))
  {
  }

  lemma MarkPendingKeeps(c: Config, s: Sys, w: Worker, e: Env)
    requires Ready(c, s, w, e) && w.pc.MarkPending?
    ensures Kept(c, s, w, e)
  {
    MarkPendingMarks(c, s, w, e);
    if After(c, s, w, e) != s {
      MarkedKeeps(c, s, w);
    }
  }

  /** One Publish call, whatever becomes of its MERGE. */
  predicate Published(s: Sys, s': Sys, w: Worker)
    requires w.execution.Returned? && w.payload.Some?
  {
    var row := RowFor(w.execution.out, w.payload.value);
    && s' == s.(shared := s.shared.(table := s'.shared.table, inflight := s'.shared.inflight),
                hist := Use(s.hist, w.payload.value).(publishes := s.hist.publishes + 1))
    && (s'.shared.table == s.shared.table || s'.shared.table == Merge(s.shared.table, row))
    && s'.shared.inflight <= s.shared.inflight + {row}
  }

  lemma PublishedKeepsSink(s: Sys, s': Sys, w: Worker)
    requires w.execution.Returned? && w.payload.Some? && Published(s, s', w)
    ensures forall p: Payload :: InSink(s, p) ==> InSink(s', p)
  {
    var row := RowFor(w.execution.out, w.payload.value);
    forall p: Payload | InSink(s, p) ensures Classify(Merge(s.shared.table, row), RowFor(p.decoded, p)) == Identical {
      IdenticalIsStable(s.shared.table, RowFor(p.decoded, p), row);
    }
  }

  lemma PublishedKeepsRow(c: Config, s: Sys, s': Sys, w: Worker)
    requires RowInv(c, s) && WorkerInv(s, w) && w.pc.Publish? && Published(s, s', w)
    requires forall p: Payload :: InSink(s, p) ==> InSink(s', p)
    ensures RowInv(c, s')
  {
  }

  lemma PublishedKeepsWorker(c: Config, s: Sys, s': Sys, w: Worker, pc: Pc)
    requires RowInv(c, s) && WorkerInv(s, w) && w.pc.Publish? && Published(s, s', w)
    requires forall p: Payload :: InSink(s, p) ==> InSink(s', p)
    requires pc.ReadBack? || pc.Verify? || pc.RetryLater?
    ensures Frame(s, s', Some(w.token)) && WorkerInv(s', w.(pc := pc))
  {
  }

  lemma PublishedKeeps(c: Config, s: Sys, s': Sys, w: Worker, pc: Pc)
    requires RowInv(c, s) && WorkerInv(s, w) && w.pc.Publish? && Published(s, s', w)
    requires pc.ReadBack? || pc.Verify? || pc.RetryLater?
    ensures RowInv(c, s') && Frame(s, s', Some(w.token)) && WorkerInv(s', w.(pc := pc))
  {
    PublishedKeepsSink(s, s', w);
    PublishedKeepsRow(c, s, s', w);
    PublishedKeepsWorker(c, s, s', w, pc);
  }

  lemma PublishPublishes(c: Config, s: Sys, w: Worker, e: Env)
    requires Ready(c, s, w, e) && w.pc.Publish?
    ensures Published(s, After(c, s, w, e), w)
    ensures var n := NextWorker(c, s, w, e);
            n.Some? && n.value == w.(pc := n.value.pc) &&
                (n.value.pc.ReadBack? || n.value.pc.Verify? || n.value.pc.RetryLater?)
  {
  }

  lemma PublishKeeps(c: Config, s: Sys, w: Worker, e: Env)
    requires Ready(c, s, w, e) && w.pc.Publish?
    ensures Kept(c, s, w, e)
  {
    PublishPublishes(c, s, w, e);
    PublishedKeeps(c, s, After(c, s, w, e), w, NextWorker(c, s, w, e).value.pc);
  }

  /** Readbacks change nothing but the position. */
  lemma ReadReads(c: Config, s: Sys, w: Worker, e: Env)
    requires Ready(c, s, w, e) && (w.pc.ReadBack? || w.pc.Verify?)
    ensures After(c, s, w, e) == s.(hist := Use(s.hist, w.payload.value))
    ensures var n := NextWorker(c, s, w, e);
            && n.Some? && n.value == w.(pc := n.value.pc)
            && (n.value.pc.Complete? || n.value.pc.Verify? || n.value.pc.RetryLater? || n.value.pc.FailConflict?)
            && (n.value.pc.Complete? ==> InSink(s, w.payload.value))
  {
  }

  lemma ReadKeeps(c: Config, s: Sys, w: Worker, e: Env)
    requires Ready(c, s, w, e) && (w.pc.ReadBack? || w.pc.Verify?)
    ensures Kept(c, s, w, e)
  {
    ReadReads(c, s, w, e);
    UsedKeeps(c, s, w);
    var n := NextWorker(c, s, w, e).value;
    assert WorkerInv(s, n);
    OtherKeeps(s, After(c, s, w, e), None, n);
  }

  lemma UsedKeeps(c: Config, s: Sys, w: Worker)
    requires RowInv(c, s) && IsStaged(s, w)
    ensures var s' := s.(hist := Use(s.hist, w.payload.value));
            RowInv(c, s') && Frame(s, s', None) && Frame(s, s', Some(w.token))
  {
  }

  /** RetryVerification below its bound: back to the queue, still pending. */
  predicate Requeued(c: Config, s: Sys, s': Sys) {
    var r := s.shared.row; var r' := s'.shared.row;
    && r.status.Running? && r.pending && r.verifications + 1 < c.maxVerifications
    && r' == r.(verifications := r.verifications + 1, status := Queued, terminalState := "", failure := None,
                completedAt := None, retryAt := r'.retryAt, workerId := None, token := None, expires := None)
    && s' == WithRow(s, r').(hist := s.hist.(requeues := s.hist.requeues + 1))
  }

  lemma RequeuedKeeps(c: Config, s: Sys, s': Sys, tok: Option<Token>)
    requires RowInv(c, s) && Requeued(c, s, s')
    ensures RowInv(c, s') && Frame(s, s', tok)
  {
  }

  lemma RetryRetries(c: Config, s: Sys, w: Worker, e: Env)
    requires Ready(c, s, w, e) && w.pc.RetryLater?
    ensures NextWorker(c, s, w, e).None?
    ensures var s' := After(c, s, w, e);
            s' == s || Requeued(c, s, s') || (Ended(s, s'.shared.row) && s' == WithRow(s, s'.shared.row))
  {
  }

  lemma RetryKeeps(c: Config, s: Sys, w: Worker, e: Env)
    requires Ready(c, s, w, e) && w.pc.RetryLater?
    ensures Kept(c, s, w, e)
  {
    RetryRetries(c, s, w, e);
    var s' := After(c, s, w, e);
    if Requeued(c, s, s') {
      RequeuedKeeps(c, s, s', Some(w.token));
    } else if s' != s {
      EndedKeeps(c, s, s'.shared.row, s.hist, Some(w.token));
      assert s' == s'.(hist := s.hist);
    }
  }

  lemma CompleteBooks(c: Config, s: Sys, w: Worker, e: Env)
    requires Ready(c, s, w, e) && w.pc.Complete?
    ensures NextWorker(c, s, w, e).None? && SameBooks(s.hist, After(c, s, w, e).hist)
    ensures After(c, s, w, e).shared == s.shared.(row := After(c, s, w, e).shared.row)
  {
  }

  function CompletedRow(r: Row, out: Outcome, p: Payload, now: Time): Row {
    Finish(r, Completed, out.content.terminalState, now)
    .(response := Some(p), payload := Some(p), completion := Some(CompletionOf(out)), pending := false, retryAt := None)
  }

  lemma CompleteWrites(c: Config, s: Sys, w: Worker, e: Env)
    requires Ready(c, s, w, e) && w.pc.Complete?
    ensures var r, r' := s.shared.row, After(c, s, w, e).shared.row;
            r' == r || (r.status.Running? && Current(s, w) && AuthoritativeRef(w.execution.out)
                        && r' == CompletedRow(r, w.execution.out, w.payload.value, s.now))
  {
  }

  lemma CompletedRowEnds(c: Config, s: Sys, w: Worker)
    requires RowInv(c, s) && WorkerInv(s, w) && w.pc.Complete?
    requires s.shared.row.status.Running? && Current(s, w) && AuthoritativeRef(w.execution.out)
    ensures Ended(s, CompletedRow(s.shared.row, w.execution.out, w.payload.value, s.now))
  {
  }

  lemma CompleteEnds(c: Config, s: Sys, w: Worker, e: Env)
    requires Ready(c, s, w, e) && w.pc.Complete?
    ensures var r' := After(c, s, w, e).shared.row; r' == s.shared.row || Ended(s, r')
  {
    CompleteWrites(c, s, w, e);
    if After(c, s, w, e).shared.row != s.shared.row {
      CompletedRowEnds(c, s, w);
    }
  }

  lemma CompleteKeeps(c: Config, s: Sys, w: Worker, e: Env)
    requires Ready(c, s, w, e) && w.pc.Complete?
    ensures Kept(c, s, w, e)
  {
    CompleteBooks(c, s, w, e);
    CompleteEnds(c, s, w, e);
    var s' := After(c, s, w, e);
    if s'.shared.row != s.shared.row {
      EndedKeeps(c, s, s'.shared.row, s'.hist, Some(w.token));
      assert s' == WithRow(s, s'.shared.row).(hist := s'.hist);
    }
  }

  lemma StatementKeeps(c: Config, s: Sys, w: Worker, e: Env)
    requires Ready(c, s, w, e)
    ensures Kept(c, s, w, e)
  {
    match w.pc {
      case Start => StartKeeps(c, s, w, e);
      case Executing => ExecutingKeeps(c, s, w, e);
      case Decide => DecideKeeps(c, s, w, e);
      case Stage => StageKeeps(c, s, w, e);
      case Probe => FenceKeeps(c, s, w, e);
      case Fence => FenceKeeps(c, s, w, e);
      case MarkPending => MarkPendingKeeps(c, s, w, e);
      case Publish => PublishKeeps(c, s, w, e);
      case ReadBack => ReadKeeps(c, s, w, e);
      case Verify => ReadKeeps(c, s, w, e);
      case RetryLater => RetryKeeps(c, s, w, e);
      case Complete => CompleteKeeps(c, s, w, e);
      case _ => AbortKeeps(c, s, w, e);
    }
  }

  lemma RowInvIgnoresWorkers(c: Config, mid: Sys, s': Sys)
    requires s' == mid.(workers := s'.workers) && RowInv(c, mid)
    ensures RowInv(c, s')
  {
  }

  lemma StepKeeps(c: Config, s: Sys, id: WorkerId, e: Env)
    requires Inv(c, s)
    ensures Inv(c, DoStep(c, s, id, e))
  {
    if id in s.workers && OwnOutcome(s.shared.row, e.execution) {
      var w := s.workers[id];
      StatementKeeps(c, s, w, e);
      RowInvIgnoresWorkers(c, After(c, s, w, e), DoStep(c, s, id, e));
      StepKeepsWorkers(s, After(c, s, w, e), DoStep(c, s, id, e), id);
    }
  }

  lemma WorkerActionKeeps(c: Config, s: Sys, a: Action)
    requires Inv(c, s) && (a.Lease? || a.Step? || a.HeartbeatTick? || a.Crash?)
    ensures Inv(c, Apply(c, s, a))
  {
    match a {
      case Lease(_, _, _, _, _) => LeaseKeeps(c, s, a);
      case Step(id, e) => StepKeeps(c, s, id, e);
      case HeartbeatTick(id, f, late) => BeatKeeps(c, s, id, f, late);
      case Crash(id) => CrashKeeps(c, s, id);
    }
  }

  lemma SweepActionKeeps(c: Config, s: Sys, a: Action)
    requires Inv(c, s) && (a.RequestCancel? || a.RecoverOrphan? || a.SweepExhausted?)
    ensures Inv(c, Apply(c, s, a))
  {
    match a {
      case RequestCancel => CancelKeeps(c, s);
      case RecoverOrphan => RecoverKeeps(c, s);
      case SweepExhausted => SweepKeeps(c, s);
    }
  }

  lemma OutsideActionKeeps(c: Config, s: Sys, a: Action)
    requires Inv(c, s) && (a.LateMerge? || a.ForeignMerge? || a.Claim? || a.Resolve?)
    ensures Inv(c, Apply(c, s, a))
  {
    match a {
      case LateMerge(row) => MergeKeeps(c, s, row, s.shared.inflight - {row});
      case ForeignMerge(row) => MergeKeeps(c, s, row, s.shared.inflight);
      case Claim(tok, lease) => ClaimKeeps(c, s, tok, lease);
      case Resolve(tok, res) => ResolveKeeps(c, s, tok, res);
    }
  }

  /** Every action keeps the invariant. */
  lemma ApplyKeeps(c: Config, s: Sys, a: Action)
    requires Inv(c, s)
    ensures Inv(c, Apply(c, s, a))
  {
    if a.Lease? || a.Step? || a.HeartbeatTick? || a.Crash? {
      WorkerActionKeeps(c, s, a);
    } else if a.Tick? {
      TickKeeps(c, s, a.d);
    } else if a.RequestCancel? || a.RecoverOrphan? || a.SweepExhausted? {
      SweepActionKeeps(c, s, a);
    } else {
      OutsideActionKeeps(c, s, a);
    }
  }

  /** The invariant holds in every state of every execution. */
  lemma {:induction false} RunKeeps(c: Config, s: Sys, actions: seq<Action>)
    requires Inv(c, s)
    ensures Inv(c, Run(c, s, actions))
    decreases |actions|
  {
    if actions != [] {
      ApplyKeeps(c, s, actions[0]);
      RunKeeps(c, Apply(c, s, actions[0]), actions[1..]);
    }
  }

  lemma StepKeepsWorkers(s: Sys, mid: Sys, s': Sys, id: WorkerId)
    requires WorkersInv(s) && id in s.workers && Frame(s, mid, Some(s.workers[id].token))
    requires s' == mid.(workers := s'.workers)
    requires s'.workers.Keys <= s.workers.Keys
    requires forall i :: i in s'.workers && i != id ==> s'.workers[i] == s.workers[i]
    requires id in s'.workers ==> s'.workers[id].id == id && s'.workers[id].token == s.workers[id].token
                                  && WorkerInv(mid, s'.workers[id])
    ensures WorkersInv(s')
  {
    forall i | i in s'.workers ensures WorkerInv(s', s'.workers[i]) {
      if i != id {
        OtherKeeps(s, mid, Some(s.workers[id].token), s.workers[i]);
      }
      MovesAlone(mid, s', s'.workers[i]);
    }
  }

  lemma MovesAlone(mid: Sys, s': Sys, w: Worker)
    requires s' == mid.(workers := s'.workers) && WorkerInv(mid, w)
    ensures WorkerInv(s', w)
  {
  }
}
