/** What the protocol guarantees over whole executions.

    `Run(c, s0, as)` is the state after the actions `as`; a statement about it and
    about `Run(c, Run(c, s0, as), bs)` speaks of a reachable state and of every
    later one. */
module Guarantees {
  import opened Wrappers
  import opened Ledger
  import opened ResultSink
  import opened Worker
  import opened Protocol
  import opened Preservation

  lemma Reach(c: Config, s0: Sys, actions: seq<Action>)
    requires Init(s0)
    ensures Inv(c, Run(c, s0, actions))
  {
    InitInv(c, s0);
    RunKeeps(c, s0, actions);
  }

  // ---- how one action can change the row ----

  datatype Change = Same | Extended | Leasing | Staging | Marking | CancelFlag | Requeue | End | OutboxOnly

  /** The row changed in the way `k` says, and in no other. */
  predicate Changed(c: Config, s: Sys, r': Row, k: Change) {
    var r := s.shared.row;
    match k
    case Same => r' == r
    case Extended => r.status.Running? && r' == r.(expires := Some(s.now + c.lease))
    case Leasing =>
      && Leasable(r, s.now, c.maxAttempts) && r'.token.Some? && r'.token.value !in s.hist.issued
      && r' == r.(status := Running, workerId := r'.workerId, token := r'.token, expires := r'.expires,
                  attempt := r.attempt + 1, retryAt := None)
    case Staging =>
      && r.status.Running? && !r.cancelRequested && r.payload.None? && r'.payload.Some?
      && r' == r.(response := r'.payload, payload := r'.payload)
    case Marking =>
      && r.status.Running? && !r.cancelRequested && !r.pending && r.payload.Some?
      && r' == r.(pending := true, retryAt := None)
    case CancelFlag => !Terminal(r.status) && (r.status.Queued? ==> r.pending) && r' == r.(cancelRequested := true)
    case Requeue =>
      && r.status.Running? && r.pending && r.verifications + 1 < c.maxVerifications
      && r' == r.(verifications := r.verifications + 1, status := Queued, terminalState := "", failure := None,
                  completedAt := None, retryAt := r'.retryAt, workerId := None, token := None, expires := None)
    case End =>
      && !Terminal(r.status) && Terminal(r'.status) && !r'.pending && r'.token.None? && r'.payload == r.payload
      && r'.runId == r.runId && r'.resultId == r.resultId
      && (r.cancelRequested ==> r'.cancelRequested)
    case OutboxOnly => Terminal(r.status) && r' == r.(outbox := r'.outbox)
  }

  ghost predicate SomeChange(c: Config, s: Sys, r': Row) { exists k :: Changed(c, s, r', k) }

  lemma StageChanges(c: Config, s: Sys, w: Worker, e: Env)
    requires Ready(c, s, w, e) && w.pc.Stage?
    ensures var r' := After(c, s, w, e).shared.row; Changed(c, s, r', Same) || Changed(c, s, r', Staging)
  {
  }

  lemma QuietChanges(c: Config, s: Sys, w: Worker, e: Env)
    requires Ready(c, s, w, e) && (w.pc.Start? || w.pc.Executing? || w.pc.Decide?)
    ensures Changed(c, s, After(c, s, w, e).shared.row, Same)
  {
  }

  lemma StatementChanges(c: Config, s: Sys, w: Worker, e: Env)
    requires Ready(c, s, w, e)
    ensures SomeChange(c, s, After(c, s, w, e).shared.row)
  {
    var r' := After(c, s, w, e).shared.row;
    if w.pc.Stage? {
      StageChanges(c, s, w, e);
    } else if w.pc.Start? || w.pc.Executing? || w.pc.Decide? {
      QuietChanges(c, s, w, e);
    } else if w.pc.Probe? || w.pc.Fence? {
      FenceBeats(c, s, w, e);
      assert Changed(c, s, r', Same) || Changed(c, s, r', Extended);
    } else if w.pc.MarkPending? {
      MarkPendingMarks(c, s, w, e);
      assert Changed(c, s, r', Same) || Changed(c, s, r', Marking);
    } else if w.pc.Publish? {
      PublishPublishes(c, s, w, e);
      assert Changed(c, s, r', Same);
    } else if w.pc.ReadBack? || w.pc.Verify? {
      ReadReads(c, s, w, e);
      assert Changed(c, s, r', Same);
    } else if w.pc.RetryLater? {
      RetryRetries(c, s, w, e);
      assert Changed(c, s, r', Same) || Changed(c, s, r', Requeue) || Changed(c, s, r', End);
    } else if w.pc.Complete? {
      CompleteEnds(c, s, w, e);
      assert Changed(c, s, r', Same) || Changed(c, s, r', End);
    } else {
      AbortEnds(c, s, w, e);
      assert Changed(c, s, r', Same) || Changed(c, s, r', End);
    }
  }

  lemma EnvironmentChanges(c: Config, s: Sys, a: Action)
    requires Inv(c, s) && !a.Step? && !a.HeartbeatTick? && !a.Lease?
    ensures SomeChange(c, s, Apply(c, s, a).shared.row)
  {
    var r' := Apply(c, s, a).shared.row;
    assert Changed(c, s, r', Same) || Changed(c, s, r', CancelFlag) || Changed(c, s, r', End) ||
        Changed(c, s, r', OutboxOnly);
  }

  lemma LeaseChanges(c: Config, s: Sys, a: Action)
    requires Inv(c, s) && a.Lease?
    ensures SomeChange(c, s, Apply(c, s, a).shared.row)
  {
    var r' := DoLease(c, s, a).shared.row;
    assert Changed(c, s, r', Same) || Changed(c, s, r', Leasing);
  }

  lemma ApplyChanges(c: Config, s: Sys, a: Action)
    requires Inv(c, s)
    ensures SomeChange(c, s, Apply(c, s, a).shared.row)
  {
    var r' := Apply(c, s, a).shared.row;
    if a.Step? {
      if a.w in s.workers && OwnOutcome(s.shared.row, a.env.execution) {
        StatementChanges(c, s, s.workers[a.w], a.env);
      } else {
        assert Changed(c, s, r', Same);
      }
    } else if a.HeartbeatTick? {
      BeatBeats(c, s, a.w, a.fault, a.late);
      assert Changed(c, s, r', Same) || Changed(c, s, r', Extended);
    } else if a.Lease? {
      LeaseChanges(c, s, a);
    } else {
      EnvironmentChanges(c, s, a);
    }
  }

  // ---- what only ever grows, and what never changes again ----

  predicate RowLater(r: Row, r': Row) {
    && r'.runId == r.runId && r'.resultId == r.resultId
    && (Terminal(r.status) ==> r' == r.(outbox := r'.outbox))
    && (r.payload.Some? ==> r'.payload == r.payload)
    && (r.cancelRequested ==> r'.cancelRequested)
  }

  predicate HistLater(h: History, h': History, r: Row) {
    && h.issued <= h'.issued && h.used <= h'.used && h.executed <= h'.executed
    && (h.earlyCancel ==> h'.earlyCancel)
    && (h.marker.Some? ==> h'.marker == h.marker)
    && (r.payload.Some? ==> h'.executable == h.executable)
    && h.resolved <= h'.resolved && h.claims.Keys <= h'.claims.Keys
    && (forall k :: k in h.claims ==> h'.claims[k] == h.claims[k])
  }

  /** Write-once sink: a result id that has rows keeps exactly those rows. */
  ghost predicate TableLater(t: seq<SinkRow>, t': seq<SinkRow>) {
    forall id :: Matching(t, id) != [] ==> Matching(t', id) == Matching(t, id)
  }

  /** Fencing: a token that was issued and is not current now never becomes current. */
  predicate TokensLater(s: Sys, s': Sys) {
    forall k :: k in s.hist.issued && s.shared.row.token != Some(k) ==> s'.shared.row.token != Some(k)
  }

  ghost predicate Later(s: Sys, s': Sys) {
    && RowLater(s.shared.row, s'.shared.row) && HistLater(s.hist, s'.hist, s.shared.row)
    && TableLater(s.shared.table, s'.shared.table) && TokensLater(s, s')
  }

  lemma ChangeIsLater(c: Config, s: Sys, s': Sys)
    requires Inv(c, s) && SomeChange(c, s, s'.shared.row)
    ensures RowLater(s.shared.row, s'.shared.row) && TokensLater(s, s')
  {
    var k :| Changed(c, s, s'.shared.row, k);
  }

  lemma StatementBooks(c: Config, s: Sys, w: Worker, e: Env)
    requires Ready(c, s, w, e)
    ensures HistLater(s.hist, After(c, s, w, e).hist, s.shared.row)
    ensures TableLater(s.shared.table, After(c, s, w, e).shared.table)
  {
    if w.pc.Publish? {
      PublishPublishes(c, s, w, e);
      MergeIsLater(s.shared.table, RowFor(w.execution.out, w.payload.value));
    } else if w.pc.ReadBack? || w.pc.Verify? {
      ReadReads(c, s, w, e);
    } else if w.pc.MarkPending? {
      MarkPendingMarks(c, s, w, e);
    } else if w.pc.Complete? {
      CompleteEnds(c, s, w, e);
      CompleteUses(c, s, w, e);
    } else if w.pc.RetryLater? {
      RetryRetries(c, s, w, e);
    } else if w.pc.Probe? || w.pc.Fence? {
      FenceBeats(c, s, w, e);
    } else if w.pc.Start? || w.pc.Executing? || w.pc.Decide? {
      StartBooks(c, s, w, e);
    } else if w.pc.Stage? {
      StageBooks(c, s, w, e);
    } else {
      AbortEnds(c, s, w, e);
    }
  }

  lemma CompleteUses(c: Config, s: Sys, w: Worker, e: Env)
    requires Ready(c, s, w, e) && w.pc.Complete?
    ensures s.hist.used <= After(c, s, w, e).hist.used
  {
  }

  lemma StartBooks(c: Config, s: Sys, w: Worker, e: Env)
    requires Ready(c, s, w, e) && (w.pc.Start? || w.pc.Executing? || w.pc.Decide?)
    ensures After(c, s, w, e).shared == s.shared
    ensures After(c, s, w, e).hist == s.hist
            || After(c, s, w, e).hist
            == s.hist.(executed := s.hist.executed + {w.token}, executions := s.hist.executions + 1)
  {
  }

  lemma StageBooks(c: Config, s: Sys, w: Worker, e: Env)
    requires Ready(c, s, w, e) && w.pc.Stage?
    ensures After(c, s, w, e).shared == s.shared.(row := After(c, s, w, e).shared.row)
    ensures After(c, s, w, e).hist == s.hist.(staged := After(c, s, w, e).hist.staged)
  {
  }

  lemma MergeIsLater(t: seq<SinkRow>, row: SinkRow)
    ensures TableLater(t, Merge(t, row))
  {
    forall id | Matching(t, id) != [] ensures Matching(Merge(t, row), id) == Matching(t, id) {
      MergeNeverOverwrites(t, row, id);
    }
  }

  lemma LeaseBooks(c: Config, s: Sys, a: Action)
    requires Inv(c, s) && a.Lease?
    ensures HistLater(s.hist, DoLease(c, s, a).hist, s.shared.row) && DoLease(c, s, a).shared.table == s.shared.table
  {
  }

  lemma ClaimBooks(c: Config, s: Sys, a: Action)
    requires Inv(c, s) && (a.Claim? || a.Resolve? || a.RequestCancel?)
    ensures HistLater(s.hist, Apply(c, s, a).hist, s.shared.row) && Apply(c, s, a).shared.table == s.shared.table
  {
  }

  lemma OtherBooks(c: Config, s: Sys, a: Action)
    requires Inv(c, s) && !a.Step? && !a.Lease? && !a.Claim? && !a.Resolve? && !a.RequestCancel?
    ensures Apply(c, s, a).hist == s.hist
    ensures TableLater(s.shared.table, Apply(c, s, a).shared.table)
  {
    if a.LateMerge? || a.ForeignMerge? {
      MergeIsLater(s.shared.table, a.row);
    }
  }

  lemma EnvironmentBooks(c: Config, s: Sys, a: Action)
    requires Inv(c, s) && !a.Step?
    ensures HistLater(s.hist, Apply(c, s, a).hist, s.shared.row)
    ensures TableLater(s.shared.table, Apply(c, s, a).shared.table)
  {
    if a.Lease? {
      LeaseBooks(c, s, a);
    } else if a.Claim? || a.Resolve? || a.RequestCancel? {
      ClaimBooks(c, s, a);
    } else {
      OtherBooks(c, s, a);
    }
  }

  lemma ApplyIsLater(c: Config, s: Sys, a: Action)
    requires Inv(c, s)
    ensures Later(s, Apply(c, s, a))
  {
    ApplyChanges(c, s, a);
    ChangeIsLater(c, s, Apply(c, s, a));
    if !a.Step? {
      EnvironmentBooks(c, s, a);
    } else if a.w in s.workers && OwnOutcome(s.shared.row, a.env.execution) {
      StatementBooks(c, s, s.workers[a.w], a.env);
    }
  }

  lemma LaterTrans(s: Sys, m: Sys, t: Sys)
    requires Later(s, m) && Later(m, t)
    ensures Later(s, t)
  {
    forall id | Matching(s.shared.table, id) != []
      ensures Matching(t.shared.table, id) == Matching(s.shared.table, id)
    {
      assert Matching(m.shared.table, id) != [];
    }
    assert RowLater(s.shared.row, t.shared.row);
  }

  /** Everything in `Later` holds between a reachable state and any later one. */
  lemma {:induction false} RunIsLater(c: Config, s: Sys, actions: seq<Action>)
    requires Inv(c, s)
    ensures Later(s, Run(c, s, actions))
    decreases |actions|
  {
    if actions != [] {
      var m := Apply(c, s, actions[0]);
      ApplyIsLater(c, s, actions[0]);
      ApplyKeeps(c, s, actions[0]);
      RunIsLater(c, m, actions[1..]);
      LaterTrans(s, m, Run(c, m, actions[1..]));
    }
  }
}
