/** The safety theorems of the run lifecycle. `s` is the state after `actions`,
    `t` any later state, after `more` as well. */
module Theorems {
  import opened Collections
  import opened Wrappers
  import opened Ledger
  import opened ResultSink
  import opened Worker
  import opened Protocol
  import opened Preservation
  import opened Guarantees

  /** A run is completed against an authoritative sink when its reference is not a
      placeholder. */
  predicate CompletedAuthoritatively(r: Row) {
    r.status.Completed? && r.payload.Some? && !Placeholder(r.payload.value.decoded)
  }

  lemma TwoStates(c: Config, s0: Sys, actions: seq<Action>, more: seq<Action>)
    requires Init(s0)
    ensures var s := Run(c, s0, actions); var t := Run(c, s, more);
            Inv(c, s) && Inv(c, t) && Later(s, t)
  {
    Reach(c, s0, actions);
    RunKeeps(c, Run(c, s0, actions), more);
    RunIsLater(c, Run(c, s0, actions), more);
  }

  /** Publication: once a run is completed with an authoritative reference, the sink
      holds exactly one row under its result id, with its run id and exactly its
      result bytes, now and in every later state, and the run stays as it is. */
  lemma CompletedRunIsPublished(c: Config, s0: Sys, actions: seq<Action>, more: seq<Action>)
    requires Init(s0) && CompletedAuthoritatively(Run(c, s0, actions).shared.row)
    ensures var r := Run(c, s0, actions).shared.row;
            var t := Run(c, Run(c, s0, actions), more);
            && Matching(t.shared.table, r.resultId) == [SinkRow(r.runId, r.resultId, r.payload.value)]
            && CompletedAuthoritatively(t.shared.row) && t.shared.row.payload == r.payload
            && r.completion == Some(CompletionOf(r.payload.value.decoded))
  {
    TwoStates(c, s0, actions, more);
    var s := Run(c, s0, actions);
    assert Matching(s.shared.table, s.shared.row.resultId) != [];
  }

  /** Terminal absorption: no later action of any actor changes a terminal row
      outside its outbox columns, and a terminal row is neither publication-pending
      nor leased. */
  lemma TerminalRunIsFinal(c: Config, s0: Sys, actions: seq<Action>, more: seq<Action>)
    requires Init(s0) && Terminal(Run(c, s0, actions).shared.row.status)
    ensures var r := Run(c, s0, actions).shared.row;
            var r' := Run(c, Run(c, s0, actions), more).shared.row;
            && r' == r.(outbox := r'.outbox)
            && !r.pending && r.workerId.None? && r.token.None? && r.expires.None?
  {
    TwoStates(c, s0, actions, more);
  }

  /** Staged bytes are write-once, and they are the only bytes any Publish, Verify
      or CompletePublished ever receives. */
  lemma StagedBytesAreWriteOnce(c: Config, s0: Sys, actions: seq<Action>, more: seq<Action>, p: Payload)
    requires Init(s0)
    ensures var s := Run(c, s0, actions); var t := Run(c, s, more);
            && (s.shared.row.payload == Some(p) ==> t.shared.row.payload == Some(p))
            && (p in s.hist.used ==> s.shared.row.payload == Some(p) && t.shared.row.payload == Some(p))
  {
    TwoStates(c, s0, actions, more);
  }

  /** Publish is called at most once in the whole life of a run, and only under the
      lease that made publication pending. */
  lemma PublishedAtMostOnce(c: Config, s0: Sys, actions: seq<Action>)
    requires Init(s0)
    ensures var s := Run(c, s0, actions);
            && s.hist.publishes <= 1
            && (s.hist.publishes == 1 ==> s.hist.marker.Some? && s.shared.row.payload.Some?)
  {
    Reach(c, s0, actions);
    MarkerHasStaged(c, s0, actions);
  }

  lemma {:induction false} MarkerHasStaged(c: Config, s0: Sys, actions: seq<Action>)
    requires Inv(c, s0) || Init(s0)
    requires s0.hist.marker.Some? ==> s0.hist.staged.Some?
    ensures var s := Run(c, s0, actions); s.hist.marker.Some? ==> s.hist.staged.Some?
    ensures Inv(c, Run(c, s0, actions))
    decreases |actions|
  {
    if Init(s0) {
      InitInv(c, s0);
    }
    if actions != [] {
      ApplyKeeps(c, s0, actions[0]);
      MarkerStep(c, s0, actions[0]);
      MarkerHasStaged(c, Apply(c, s0, actions[0]), actions[1..]);
    }
  }

  lemma MarkerStep(c: Config, s: Sys, a: Action)
    requires Inv(c, s) && (s.hist.marker.Some? ==> s.hist.staged.Some?)
    ensures Apply(c, s, a).hist.marker.Some? ==> Apply(c, s, a).hist.staged.Some?
  {
    if a.Step? && a.w in s.workers && OwnOutcome(s.shared.row, a.env.execution) {
      StatementKeeps(c, s, s.workers[a.w], a.env);
    }
  }

  /** The executor is started at most maxAttempts times, every time under a
      different lease; and no lease granted once a result is staged ever runs it. */
  lemma ExecutionsAreBounded(c: Config, s0: Sys, actions: seq<Action>, more: seq<Action>)
    requires Init(s0)
    ensures var s := Run(c, s0, actions); var t := Run(c, s, more);
            && s.hist.executions == |s.hist.executed|
            && (s.hist.executions <= c.maxAttempts || s.hist.executions == 0)
            && (s.shared.row.payload.Some? ==> t.hist.executed <= s.hist.issued)
  {
    TwoStates(c, s0, actions, more);
    var s := Run(c, s0, actions);
    SubsetIsSmaller(s.hist.executed, s.hist.executable);
  }

  /** Cancellation cutoff: a cancel request that arrives while the run is live and
      not publication-pending wins. Publish is never called, the request is never
      lost, and the run completes only if its reference is a placeholder, that is
      if there is no authoritative sink. */
  lemma EarlyCancelWins(c: Config, s0: Sys, actions: seq<Action>, more: seq<Action>)
    requires Init(s0)
    requires var r := Run(c, s0, actions).shared.row; !Terminal(r.status) && !r.pending
    ensures var t := Run(c, Apply(c, Run(c, s0, actions), RequestCancel), more);
            && t.hist.publishes == 0 && t.shared.inflight == {}
            && t.shared.row.cancelRequested && !t.shared.row.pending
            && !CompletedAuthoritatively(t.shared.row)
  {
    Reach(c, s0, actions);
    var s := Run(c, s0, actions);
    var s' := Apply(c, s, RequestCancel);
    ApplyKeeps(c, s, RequestCancel);
    RunKeeps(c, s', more);
    RunIsLater(c, s', more);
  }

  /** A canceled run was never published, and never will be. */
  lemma CanceledRunIsNeverPublished(c: Config, s0: Sys, actions: seq<Action>, more: seq<Action>)
    requires Init(s0) && Run(c, s0, actions).shared.row.status.Canceled?
    ensures var t := Run(c, Run(c, s0, actions), more);
            && t.hist.publishes == 0 && t.shared.inflight == {} && t.shared.row.status.Canceled?
  {
    TwoStates(c, s0, actions, more);
  }

  /** After the cutoff a cancel request cannot cancel: from the moment publication
      is pending the run ends completed or failed. */
  lemma CutoffIsFinal(c: Config, s0: Sys, actions: seq<Action>, more: seq<Action>)
    requires Init(s0) && Run(c, s0, actions).shared.row.pending
    ensures var t := Run(c, Run(c, s0, actions), more);
            !t.shared.row.status.Canceled? && (!Terminal(t.shared.row.status) ==> t.shared.row.pending)
  {
    TwoStates(c, s0, actions, more);
  }

  // ---- fencing ----

  /** A statement issued under a token that is not the row's current one changes no
      column of the row. */
  lemma StaleTokenWritesNothing(c: Config, s: Sys, id: WorkerId, e: Env, f: Fault, late: bool)
    requires id in s.workers && s.shared.row.token != Some(s.workers[id].token)
    ensures Apply(c, s, Step(id, e)).shared.row == s.shared.row
    ensures Apply(c, s, HeartbeatTick(id, f, late)).shared.row == s.shared.row
  {
    StaleStatement(c, s.shared, s.workers[id], s.now, e);
  }

  lemma StaleStatement(c: Config, sh: Shared, w: Worker, now: Time, e: Env)
    requires sh.row.token != Some(w.token)
    ensures Advance(c, sh, w, now, e).shared.row == sh.row
  {
  }

  /** Fencing: once a lease is superseded, released or lost, the worker holding it
      changes nothing in this or any later state. */
  lemma SupersededWorkerIsFenced(c: Config, s0: Sys, actions: seq<Action>, more: seq<Action>,
                                 tok: Token, id: WorkerId, e: Env, f: Fault, late: bool)
    requires Init(s0)
    requires var s := Run(c, s0, actions); tok in s.hist.issued && s.shared.row.token != Some(tok)
    requires var t := Run(c, Run(c, s0, actions), more); id in t.workers && t.workers[id].token == tok
    ensures var t := Run(c, Run(c, s0, actions), more);
            && t.shared.row.token != Some(tok) && Apply(c, t, Step(id, e)).shared.row == t.shared.row
            && Apply(c, t, HeartbeatTick(id, f, late)).shared.row == t.shared.row
  {
    TwoStates(c, s0, actions, more);
    StaleTokenWritesNothing(c, Run(c, Run(c, s0, actions), more), id, e, f, late);
  }

  /** No two workers ever hold the same token, so at most one can write; and while
      its token is current, its snapshot of publication_pending is the row's. */
  lemma HolderIsUniqueAndInformed(c: Config, s0: Sys, actions: seq<Action>, i: WorkerId, j: WorkerId)
    requires Init(s0)
    requires var s := Run(c, s0, actions);
             i in s.workers && j in s.workers && Current(s, s.workers[i]) && Current(s, s.workers[j])
    ensures i == j
    ensures var s := Run(c, s0, actions); s.workers[i].pending == s.shared.row.pending
  {
    Reach(c, s0, actions);
  }

  /** The statements that leave publication_pending alone are only ever issued for a
      run that is not pending, as long as they can take effect. */
  lemma PlainFailureNeverHitsAPendingRun(c: Config, s0: Sys, actions: seq<Action>, id: WorkerId)
    requires Init(s0)
    requires var s := Run(c, s0, actions); id in s.workers && Current(s, s.workers[id])
    ensures var s := Run(c, s0, actions); var pc := s.workers[id].pc;
            pc.FailRun? || pc.FailMalfunction? || pc.FailUnavailable? ==> !s.shared.row.pending
  {
    Reach(c, s0, actions);
  }
}
