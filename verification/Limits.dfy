/** Where the protocol does less than one may expect, with the exact circumstances:
    recovery never republishes, a run without an authoritative sink outlives its
    cancellation, and a delayed worker may start the executor after staging. */
module Limits {
  import opened Wrappers
  import opened Ledger
  import opened ResultSink
  import opened Worker
  import opened Protocol
  import opened Preservation
  import opened Guarantees
  import opened Theorems
  import opened EarlyCancel
  import opened Endings

  // ---- recovery only verifies ----

  /** The cutoff has passed, nobody is about to call Publish, and neither the table
      nor a MERGE under way holds a row for the run. */
  predicate Stranded(s: Sys) {
    && s.hist.marker.Some? && s.shared.inflight == {}
    && Matching(s.shared.table, s.shared.row.resultId) == []
    && (forall i :: i in s.workers ==> !s.workers[i].pc.Publish?)
  }

  predicate ForeignFor(a: Action, resultId: string) { a.ForeignMerge? && a.row.resultId == resultId }

  lemma StrandedStatement(c: Config, s: Sys, w: Worker, e: Env)
    requires Ready(c, s, w, e) && Stranded(s) && !w.pc.Publish?
    ensures After(c, s, w, e).shared.table == s.shared.table
    ensures After(c, s, w, e).shared.inflight == {}
    ensures NextWorker(c, s, w, e).Some? ==> !NextWorker(c, s, w, e).value.pc.Publish?
    ensures After(c, s, w, e).hist.publishes == s.hist.publishes
  {
    if w.pc.MarkPending? {
      MarkPendingMarks(c, s, w, e);
    } else if w.pc.ReadBack? || w.pc.Verify? {
      ReadReads(c, s, w, e);
    } else if w.pc.Probe? || w.pc.Fence? {
      FenceBeats(c, s, w, e);
    } else if w.pc.RetryLater? {
      RetryRetries(c, s, w, e);
    } else if w.pc.Complete? {
      CompleteEnds(c, s, w, e);
    } else if w.pc.Stage? {
      StageBooks(c, s, w, e);
      EarlyPositions(c, s, w, e);
    } else if w.pc.Start? || w.pc.Executing? || w.pc.Decide? {
      StartBooks(c, s, w, e);
      EarlyPositions(c, s, w, e);
    } else {
      AbortEnds(c, s, w, e);
    }
  }

  lemma EarlyPositions(c: Config, s: Sys, w: Worker, e: Env)
    requires Ready(c, s, w, e) && (w.pc.Stage? || w.pc.Start? || w.pc.Executing? || w.pc.Decide?)
    ensures NextWorker(c, s, w, e).Some? ==> !NextWorker(c, s, w, e).value.pc.Publish?
  {
    if w.pc.Stage? {
      StageGoes(c, s, w, e);
      RouteIsNotPublish(w, w.execution.out);
    } else if w.pc.Decide? {
      DecidePositions(s.shared, w, e);
    }
  }

  lemma RouteIsNotPublish(w: Worker, out: Outcome)
    ensures !Route(w, out).Publish?
  {
  }

  lemma DecidePositions(sh: Shared, w: Worker, e: Env)
    ensures var n := DecideNext(sh, w, e); n.worker.Some? ==> !n.worker.value.pc.Publish?
  {
    if w.execution.Returned? {
      RouteIsNotPublish(w, w.execution.out);
    }
  }

  lemma StrandedStepStays(c: Config, s: Sys, a: Action)
    requires Inv(c, s) && Stranded(s) && a.Step?
    ensures Stranded(Apply(c, s, a)) && Apply(c, s, a).hist.publishes == s.hist.publishes
  {
    ApplyIsLater(c, s, a);
    if a.w in s.workers && OwnOutcome(s.shared.row, a.env.execution) {
      StrandedStatement(c, s, s.workers[a.w], a.env);
    }
  }

  lemma StrandedStays(c: Config, s: Sys, a: Action)
    requires Inv(c, s) && Stranded(s) && !ForeignFor(a, s.shared.row.resultId)
    ensures Stranded(Apply(c, s, a)) && Apply(c, s, a).hist.publishes == s.hist.publishes
  {
    if a.Step? {
      StrandedStepStays(c, s, a);
    } else {
      ApplyIsLater(c, s, a);
      if a.HeartbeatTick? {
        BeatBeats(c, s, a.w, a.fault, a.late);
      } else if a.ForeignMerge? {
        MatchingAppend(s.shared.table, a.row, s.shared.row.resultId);
      }
    }
  }

  /** Recovery verifies and never republishes: a run whose publisher was lost between
      the cutoff and its MERGE is not published by any later action, and unless
      somebody else inserts its row it never completes. */
  lemma {:induction false} RecoveryNeverRepublishes(c: Config, s: Sys, more: seq<Action>)
    requires Inv(c, s) && Stranded(s)
    requires forall a :: a in more ==> !ForeignFor(a, s.shared.row.resultId)
    ensures var t := Run(c, s, more);
            && Stranded(t) && t.hist.publishes == s.hist.publishes
            && !CompletedAuthoritatively(t.shared.row)
    decreases |more|
  {
    if more != [] {
      var m := Apply(c, s, more[0]);
      ApplyIsLater(c, s, more[0]);
      StrandedStays(c, s, more[0]);
      ApplyKeeps(c, s, more[0]);
      RecoveryNeverRepublishes(c, m, more[1..]);
    }
  }

  ghost predicate NoForeign(actions: seq<Action>, resultId: string) {
    forall a :: a in actions ==> !ForeignFor(a, resultId)
  }

  predicate HasRow(s: Sys, resultId: string) { Matching(s.shared.table, resultId) != [] }

  /** A MERGE under way for the run puts its row in the table when it lands. */
  lemma LateMergePublishes(c: Config, s: Sys, row: SinkRow)
    requires Inv(c, s) && row in s.shared.inflight
    ensures HasRow(Apply(c, s, LateMerge(row)), s.shared.row.resultId)
  {
    assert row == RowFor(s.hist.staged.value.decoded, s.hist.staged.value);
    MergeThenReadback(s.shared.table, row);
  }

  /** So does a worker that is about to call Publish. */
  lemma PublishStepPublishes(c: Config, s: Sys, id: WorkerId)
    requires Inv(c, s) && id in s.workers && s.workers[id].pc.Publish?
    ensures HasRow(Apply(c, s, Step(id, FINE)), s.shared.row.resultId)
  {
    var w := s.workers[id];
    assert WorkerInv(s, w);
    var row := RowFor(w.execution.out, w.payload.value);
    MergeThenReadback(s.shared.table, row);
  }

  /** One action is enough wherever the run is not stranded. */
  lemma NotStrandedPublishes(c: Config, s: Sys) returns (more: seq<Action>)
    requires Inv(c, s) && s.hist.marker.Some? && !Stranded(s)
    ensures |more| <= 1 && NoForeign(more, s.shared.row.resultId) && HasRow(Run(c, s, more), s.shared.row.resultId)
  {
    more := [];
    if !HasRow(s, s.shared.row.resultId) {
      var a: Action;
      if s.shared.inflight != {} {
        var row :| row in s.shared.inflight;
        LateMergePublishes(c, s, row);
        a := LateMerge(row);
      } else {
        var i :| i in s.workers && s.workers[i].pc.Publish?;
        PublishStepPublishes(c, s, i);
        a := Step(i, FINE);
      }
      more := [a];
      assert Run(c, s, [a]) == Run(c, Apply(c, s, a), [a][1..]);
    }
  }

  /** From any state past the cutoff, the run's row can still come into the table without
      another writer's help exactly when the run is not stranded. */
  lemma PublishedExactlyWhenNotStranded(c: Config, s: Sys)
    requires Inv(c, s) && s.hist.marker.Some?
    ensures var id := s.shared.row.resultId;
            !Stranded(s) <==> exists more :: NoForeign(more, id) && HasRow(Run(c, s, more), id)
  {
    if Stranded(s) {
      forall more | NoForeign(more, s.shared.row.resultId) ensures !HasRow(Run(c, s, more), s.shared.row.resultId) {
        RecoveryNeverRepublishes(c, s, more);
        RunIsLater(c, s, more);
      }
    } else {
      var more := NotStrandedPublishes(c, s);
    }
  }

  // ---- executing scenarios ----

  lemma {:induction false} RunAppend(c: Config, s: Sys, actions: seq<Action>, a: Action)
    ensures Run(c, s, actions + [a]) == Apply(c, Run(c, s, actions), a)
    decreases |actions|
  {
    if actions == [] {
      assert Run(c, Apply(c, s, a), [a][1..]) == Apply(c, s, a);
    } else {
      assert (actions + [a])[1..] == actions[1..] + [a];
      RunAppend(c, Apply(c, s, actions[0]), actions[1..], a);
    }
  }

  const CONFIG := Config(3, 6, 600, 5)

  function SampleOutcome(placeholder: bool): Outcome {
    var content := Content("run", "result", "rule-resolved",
                           Some(ResultRef("databricks", "catalog", "result", placeholder)), "");
    Outcome(content, Sha256(content))
  }

  function Fresh(): Sys {
    Sys(Shared(Created("run", "result", 0, false), [], {}), map[], 0, NO_HISTORY)
  }

  lemma FreshIsInitial()
    ensures Init(Fresh())
  {
    assert Fresh().shared.row == Created("run", "result", 0, false);
  }

  /** The row while worker 0 holds lease 0. */
  function Held(staged: Option<Payload>): Row {
    Created("run", "result", 0, false)
      .(status := Running, workerId := Some(0), token := Some(0), expires := Some(600), attempt := 1,
        response := staged, payload := staged)
  }

  /** Worker 0 at `pc`, with everything up to it gone well. */
  function Standing(pc: Pc, ex: Execution, p: Option<Payload>, staged: Option<Payload>, started: bool): Sys {
    Sys(Shared(Held(staged), [], {}),
        map[0 := Worker(pc, 0, 0, None, false, 0, true, true, ex, p, false, false)], 0,
        NO_HISTORY.(issued := {0}, executable := {0}, executed := if started then {0} else {},
                    executions := if started then 1 else 0, staged := staged))
  }

  function Sealing(placeholder: bool): Option<Payload> { Some(Payload(SampleOutcome(placeholder))) }

  lemma LeasingStep()
    ensures Apply(CONFIG, Fresh(), Lease(0, 0, true, true, NoFault)) == Standing(Start, NotRun, None, None, false)
  {
    assert LeaseNext(Fresh().shared.row, 0, 0, 0, 600, 3).row == Held(None);
  }

  lemma StartingStep()
    ensures Apply(CONFIG, Standing(Start, NotRun, None, None, false), Step(0, FINE))
            == Standing(Executing, NotRun, None, None, true)
  {
  }

  lemma ExecutingStep(placeholder: bool)
    ensures var ex := Returned(SampleOutcome(placeholder));
            Apply(CONFIG, Standing(Executing, NotRun, None, None, true), Step(0, FINE.(execution := ex)))
            == Standing(Decide, ex, None, None, true)
  {
  }

  lemma DecidingStep(placeholder: bool)
    ensures var ex := Returned(SampleOutcome(placeholder));
            Apply(CONFIG, Standing(Decide, ex, None, None, true), Step(0, FINE))
            == Standing(Stage, ex, Sealing(placeholder), None, true)
  {
  }

  lemma StagingStep(placeholder: bool)
    ensures var ex := Returned(SampleOutcome(placeholder));
            Apply(CONFIG, Standing(Stage, ex, Sealing(placeholder), None, true), Step(0, FINE))
            == Standing(if placeholder then Complete else Fence, ex, Sealing(placeholder), Sealing(placeholder), true)
  {
    assert StageOutcome(Held(None), 0, 0, SampleOutcome(placeholder), Sealing(placeholder).value, 0)
           == Update(Held(Sealing(placeholder)), Wrote);
  }

  function Staged(placeholder: bool): Sys {
    Standing(if placeholder then Complete else Fence, Returned(SampleOutcome(placeholder)),
             Sealing(placeholder), Sealing(placeholder), true)
  }

  /** Lease, start, execute, decide and stage. */
  function Prefix(placeholder: bool): seq<Action> {
    [Lease(0, 0, true, true, NoFault)] + [Step(0, FINE)]
    + [Step(0, FINE.(execution := Returned(SampleOutcome(placeholder))))] + [Step(0, FINE)] + [Step(0, FINE)]
  }

  lemma PrefixStages(placeholder: bool)
    ensures Run(CONFIG, Fresh(), Prefix(placeholder)) == Staged(placeholder)
  {
    var a, b, d := Lease(0, 0, true, true, NoFault), Step(0, FINE),
                   Step(0, FINE.(execution := Returned(SampleOutcome(placeholder))));
    LeasingStep(); StartingStep(); ExecutingStep(placeholder); DecidingStep(placeholder); StagingStep(placeholder);
    RunAppend(CONFIG, Fresh(), [], a);
    assert [] + [a] == [a];
    RunAppend(CONFIG, Fresh(), [a], b);
    RunAppend(CONFIG, Fresh(), [a] + [b], d);
    RunAppend(CONFIG, Fresh(), [a] + [b] + [d], b);
    RunAppend(CONFIG, Fresh(), [a] + [b] + [d] + [b], b);
  }

  lemma WithdrawnPlaceholder()
    ensures var t := Apply(CONFIG, Staged(true), RequestCancel);
            && t == WithRow(Staged(true), Staged(true).shared.row.(cancelRequested := true)).(hist := t.hist)
            && t.shared.table == [] && CanComplete(t, 0) && t.workers[0].pc.Complete?
  {
    assert Cancel(Held(Sealing(true)), 0) == Held(Sealing(true)).(cancelRequested := true);
  }

  lemma StagedIsReachable(placeholder: bool)
    ensures Inv(CONFIG, Staged(placeholder))
  {
    PrefixStages(placeholder);
    FreshIsInitial();
    Reach(CONFIG, Fresh(), Prefix(placeholder));
  }

  /** The exception to the cancellation cutoff does occur: without an authoritative
      sink a run completes although its cancellation was requested before. */
  lemma PlaceholderRunOutlivesItsCancellation()
    ensures var s := Run(CONFIG, Fresh(), Prefix(true));
            var t := Apply(CONFIG, Apply(CONFIG, s, RequestCancel), Step(0, FINE));
            && !Terminal(s.shared.row.status) && !s.shared.row.pending
            && t.shared.row.status.Completed? && t.shared.row.cancelRequested && t.shared.table == []
  {
    PrefixStages(true);
    StagedIsReachable(true);
    WithdrawnPlaceholder();
    CompleteWithdrawn(Apply(CONFIG, Staged(true), RequestCancel));
  }

  lemma CompleteWithdrawn(s: Sys)
    requires s == Apply(CONFIG, Staged(true), RequestCancel) && Inv(CONFIG, Staged(true))
    requires CanComplete(s, 0) && s.workers[0].pc.Complete?
    ensures var t := Apply(CONFIG, s, Step(0, FINE));
            t.shared.row.status.Completed? && t.shared.row.cancelRequested == s.shared.row.cancelRequested &&
                t.shared.table == s.shared.table
  {
    ApplyKeeps(CONFIG, Staged(true), RequestCancel);
    PlaceholderCompletes(CONFIG, s, 0);
  }

  function Fenced(): Sys { Staged(false).(workers := map[0 := Staged(false).workers[0].(pc := MarkPending)]) }

  lemma FencingStep()
    ensures Apply(CONFIG, Staged(false), Step(0, FINE)) == Fenced()
  {
    assert Heartbeat(Staged(false).shared.row, 0, 0, 0, 600) == (Staged(false).shared.row, Owned(false));
  }

  lemma MarkingStep()
    ensures var t := Apply(CONFIG, Fenced(), Step(0, FINE));
            && t.shared == Fenced().shared.(row := Fenced().shared.row.(pending := true))
            && t.workers.Keys == {0} && t.hist == Fenced().hist.(marker := Some(0))
  {
  }

  /** A run can be stranded: one crash between the cutoff and the Publish call. */
  lemma CrashAtTheCutoffStrands()
    ensures Init(Fresh())
    ensures var t := Run(CONFIG, Fresh(), Prefix(false) + [Step(0, FINE)] + [Step(0, FINE)] + [Crash(0)]);
            Stranded(t) && t.shared.row.pending && t.hist.publishes == 0
  {
    FreshIsInitial();
    PrefixStages(false);
    var p, a := Prefix(false), Step(0, FINE);
    FencingStep();
    MarkingStep();
    RunAppend(CONFIG, Fresh(), p, a);
    RunAppend(CONFIG, Fresh(), p + [a], a);
    RunAppend(CONFIG, Fresh(), p + [a] + [a], Crash(0));
    StrandedAfterCrash(Apply(CONFIG, Fenced(), a));
  }

  lemma StrandedAfterCrash(s: Sys)
    requires s.shared == Fenced().shared.(row := Fenced().shared.row.(pending := true))
    requires s.workers.Keys == {0} && s.hist == Fenced().hist.(marker := Some(0))
    ensures var t := Apply(CONFIG, s, Crash(0)); Stranded(t) && t.shared.row.pending && t.hist.publishes == 0
  {
  }

  // ---- the executor after staging ----

  /** Snapshots with a staged result belong to leases granted after staging. */
  ghost predicate SnapshotsFit(s: Sys) {
    forall i :: i in s.workers && s.workers[i].staged.Some? ==> s.workers[i].token !in s.hist.executable
  }

  lemma RecordKeepsExecutable(h: History, w: Worker, before: Row, after: Row)
    ensures Record(h, w, before, after).executable == h.executable
  {
  }

  lemma LeaseFits(c: Config, s: Sys, a: Action)
    requires Inv(c, s) && SnapshotsFit(s) && a.Lease?
    ensures SnapshotsFit(DoLease(c, s, a))
  {
    LeaseGrants(c, s, a);
    var s' := DoLease(c, s, a);
    if s' != s {
      forall i | i in s'.workers && s'.workers[i].staged.Some? ensures s'.workers[i].token !in s'.hist.executable {
        if i in s.workers && s'.workers[i] == s.workers[i] {
          assert WorkerInv(s, s.workers[i]);
        }
      }
    }
  }

  lemma FitsStep(c: Config, s: Sys, a: Action)
    requires Inv(c, s) && SnapshotsFit(s)
    ensures SnapshotsFit(Apply(c, s, a))
  {
    if a.Lease? {
      LeaseFits(c, s, a);
    } else if a.Step? {
      if a.w in s.workers {
        var w := s.workers[a.w];
        StepKeepsSnapshot(c, s.shared, w, s.now, a.env);
        RecordKeepsExecutable(s.hist, w, s.shared.row, Advance(c, s.shared, w, s.now, a.env).shared.row);
      }
    } else if a.HeartbeatTick? {
      BeatBeats(c, s, a.w, a.fault, a.late);
    }
  }

  lemma {:induction false} ReachableFits(c: Config, s: Sys, actions: seq<Action>)
    requires Inv(c, s) && SnapshotsFit(s)
    ensures SnapshotsFit(Run(c, s, actions))
    decreases |actions|
  {
    if actions != [] {
      FitsStep(c, s, actions[0]);
      ApplyKeeps(c, s, actions[0]);
      ReachableFits(c, Apply(c, s, actions[0]), actions[1..]);
    }
  }

  lemma StartsExecutor(c: Config, s: Sys, id: WorkerId, e: Env)
    requires id in s.workers && OwnOutcome(s.shared.row, e.execution)
    ensures var before, after := s.hist.executions, Apply(c, s, Step(id, e)).hist.executions;
            after == if s.workers[id].pc.Start? && s.workers[id].staged.None? then before + 1 else before
  {
  }

  /** A step starts the executor exactly when its worker stands before it with a lease
      granted while nothing was staged, whatever is staged by now. */
  lemma ExecutorStartsUnderEarlyLeases(c: Config, s0: Sys, actions: seq<Action>, id: WorkerId, e: Env)
    requires Init(s0)
    requires var s := Run(c, s0, actions); id in s.workers && OwnOutcome(s.shared.row, e.execution)
    ensures var s := Run(c, s0, actions); var w := s.workers[id];
            Apply(c, s, Step(id, e)).hist.executions > s.hist.executions <==>
                w.pc.Start? && w.token in s.hist.executable
  {
    InitInv(c, s0);
    Reach(c, s0, actions);
    ReachableFits(c, s0, actions);
    var s := Run(c, s0, actions);
    assert WorkerInv(s, s.workers[id]);
    StartsExecutor(c, s, id, e);
  }

  // Such a worker can exist after staging: the lease of worker 0 expires before it gets
  // to the executor, and worker 1 stages a result.

  /** The row while worker 1 holds lease 1. */
  function HeldNext(staged: Option<Payload>): Row {
    Held(staged).(workerId := Some(1), token := Some(1), expires := Some(1200), attempt := 2)
  }

  function Waiting0(): Worker { Worker(Start, 0, 0, None, false, 0, true, true, NotRun, None, false, false) }

  /** Worker 0 waits at its start while worker 1 stands at `pc`. */
  function Duo(pc: Pc, ex: Execution, p: Option<Payload>, staged: Option<Payload>, started: bool): Sys {
    Sys(Shared(HeldNext(staged), [], {}),
        map[0 := Waiting0(), 1 := Worker(pc, 1, 1, None, false, 0, true, true, ex, p, false, false)], 600,
        NO_HISTORY.(issued := {0, 1}, executable := {0, 1}, executed := if started then {1} else {},
                    executions := if started then 1 else 0, staged := staged))
  }

  lemma SecondLease()
    ensures Apply(CONFIG, Apply(CONFIG, Standing(Start, NotRun, None, None, false), Tick(600)),
            Lease(1, 1, true, true, NoFault))
            == Duo(Start, NotRun, None, None, false)
  {
    assert LeaseNext(Held(None), 1, 1, 600, 600, 3).row == HeldNext(None);
  }

  lemma SecondStart()
    ensures Apply(CONFIG, Duo(Start, NotRun, None, None, false), Step(1, FINE)) ==
            Duo(Executing, NotRun, None, None, true)
  {
  }

  lemma SecondExecution()
    ensures var ex := Returned(SampleOutcome(false));
            Apply(CONFIG, Duo(Executing, NotRun, None, None, true), Step(1, FINE.(execution := ex))) ==
                Duo(Decide, ex, None, None, true)
  {
  }

  lemma SecondDecision()
    ensures var ex := Returned(SampleOutcome(false));
            Apply(CONFIG, Duo(Decide, ex, None, None, true), Step(1, FINE)) ==
                Duo(Stage, ex, Sealing(false), None, true)
  {
  }

  lemma SecondStaging()
    ensures var ex := Returned(SampleOutcome(false));
            Apply(CONFIG, Duo(Stage, ex, Sealing(false), None, true), Step(1, FINE)) ==
                Duo(Fence, ex, Sealing(false), Sealing(false), true)
  {
    assert StageOutcome(HeldNext(None), 1, 1, SampleOutcome(false), Sealing(false).value, 600)
           == Update(HeldNext(Sealing(false)), Wrote);
  }

  function Overtaking(): seq<Action> {
    [Lease(0, 0, true, true, NoFault)] + [Tick(600)] + [Lease(1, 1, true, true, NoFault)] + [Step(1, FINE)]
    + [Step(1, FINE.(execution := Returned(SampleOutcome(false))))] + [Step(1, FINE)] + [Step(1, FINE)]
  }

  lemma OvertakingStages()
    ensures Run(CONFIG, Fresh(), Overtaking()) ==
            Duo(Fence, Returned(SampleOutcome(false)), Sealing(false), Sealing(false), true)
  {
    var a, b, d := Lease(0, 0, true, true, NoFault), Tick(600), Lease(1, 1, true, true, NoFault);
    var e, f := Step(1, FINE), Step(1, FINE.(execution := Returned(SampleOutcome(false))));
    LeasingStep(); SecondLease(); SecondStart(); SecondExecution(); SecondDecision(); SecondStaging();
    RunAppend(CONFIG, Fresh(), [], a);
    assert [] + [a] == [a];
    RunAppend(CONFIG, Fresh(), [a], b);
    RunAppend(CONFIG, Fresh(), [a] + [b], d);
    RunAppend(CONFIG, Fresh(), [a] + [b] + [d], e);
    RunAppend(CONFIG, Fresh(), [a] + [b] + [d] + [e], f);
    RunAppend(CONFIG, Fresh(), [a] + [b] + [d] + [e] + [f], e);
    RunAppend(CONFIG, Fresh(), [a] + [b] + [d] + [e] + [f] + [e], e);
  }

  /** The executor does run after staging: an execution from the start in which a worker
      delayed between its lease and the executor starts it when another worker has
      already staged a result. Whatever comes of it, the staged bytes stay. */
  lemma DelayedWorkerStillExecutes(more: seq<Action>)
    ensures Init(Fresh())
    ensures var s := Run(CONFIG, Fresh(), Overtaking()); var t := Apply(CONFIG, s, Step(0, FINE));
            && s.shared.row.payload == Sealing(false) && s.hist.executions == 1 && t.hist.executions == 2
            && Run(CONFIG, t, more).shared.row.payload == Sealing(false)
  {
    FreshIsInitial();
    OvertakingStages();
    var s := Run(CONFIG, Fresh(), Overtaking());
    Reach(CONFIG, Fresh(), Overtaking());
    StartsExecutor(CONFIG, s, 0, FINE);
    ApplyIsLater(CONFIG, s, Step(0, FINE));
    ApplyKeeps(CONFIG, s, Step(0, FINE));
    RunIsLater(CONFIG, Apply(CONFIG, s, Step(0, FINE)), more);
  }
}
