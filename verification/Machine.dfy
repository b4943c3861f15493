/** The machine of Worker, run to its end in one call with nothing else in between, and why
    that is an execution of the protocol. */
module Machine {
  import opened Wrappers
  import opened Ledger
  import opened ResultSink
  import opened Worker
  import opened Protocol
  import Preservation
  import Guarantees

  /** What the environment does at each statement: the clock, and faults and results. No
      statement is reached twice in one call. */
  datatype Oracle = Oracle(at: Pc -> Time, env: Pc -> Env)

  // ---- the machine, run to its end ----

  function Distance(pc: Pc): nat {
    match pc
    case Start => 9
    case Executing => 8
    case Decide => 7
    case Stage => 6
    case Probe => 5
    case Fence => 5
    case MarkPending => 4
    case Publish => 3
    case ReadBack => 2
    case Verify => 1
    case _ => 0
  }

  lemma RouteDescends(w: Worker, out: Outcome)
    ensures Distance(Route(w, out)) <= 5
  {
  }

  lemma DecideDescends(sh: Shared, w: Worker, e: Env)
    ensures var n := DecideNext(sh, w, e); n.worker.Some? ==> Distance(n.worker.value.pc) <= 6
  {
    if w.execution.Returned? {
      RouteDescends(w, w.execution.out);
    }
  }

  lemma StageDescends(c: Config, sh: Shared, w: Worker, out: Outcome, p: Payload, now: Time, e: Env)
    requires w.pc.Stage?
    ensures var n := AdvanceStaged(c, sh, w, out, p, now, e); n.worker.Some? ==>
            Distance(n.worker.value.pc) < Distance(w.pc)
  {
    RouteDescends(w, out);
  }

  lemma FenceDescends(c: Config, sh: Shared, w: Worker, out: Outcome, p: Payload, now: Time, e: Env)
    requires w.pc.Probe? || w.pc.Fence? || w.pc.MarkPending?
    ensures var n := AdvanceStaged(c, sh, w, out, p, now, e); n.worker.Some? ==>
            Distance(n.worker.value.pc) < Distance(w.pc)
  {
  }

  lemma PublishDescends(c: Config, sh: Shared, w: Worker, out: Outcome, p: Payload, now: Time, e: Env)
    requires w.pc.Publish?
    ensures var n := AdvanceStaged(c, sh, w, out, p, now, e); n.worker.Some? ==>
            Distance(n.worker.value.pc) < Distance(w.pc)
  {
  }

  lemma ReadBackDescends(c: Config, sh: Shared, w: Worker, out: Outcome, p: Payload, now: Time, e: Env)
    requires w.pc.ReadBack?
    ensures var n := AdvanceStaged(c, sh, w, out, p, now, e); n.worker.Some? ==>
            Distance(n.worker.value.pc) < Distance(w.pc)
  {
  }

  lemma VerifyDescends(c: Config, sh: Shared, w: Worker, out: Outcome, p: Payload, now: Time, e: Env)
    requires w.pc.Verify?
    ensures var n := AdvanceStaged(c, sh, w, out, p, now, e); n.worker.Some? ==>
            Distance(n.worker.value.pc) < Distance(w.pc)
  {
  }

  lemma LastDescends(c: Config, sh: Shared, w: Worker, out: Outcome, p: Payload, now: Time, e: Env)
    requires w.pc.FailUnavailable? || w.pc.RetryLater? || w.pc.FailConflict? || w.pc.Complete?
    ensures var n := AdvanceStaged(c, sh, w, out, p, now, e); n.worker.Some? ==>
            Distance(n.worker.value.pc) < Distance(w.pc)
  {
  }

  lemma StagedDescends(c: Config, sh: Shared, w: Worker, out: Outcome, p: Payload, now: Time, e: Env)
    ensures var n := AdvanceStaged(c, sh, w, out, p, now, e); n.worker.Some? ==>
            Distance(n.worker.value.pc) < Distance(w.pc)
  {
    if w.pc.Stage? {
      StageDescends(c, sh, w, out, p, now, e);
    } else if w.pc.Probe? || w.pc.Fence? || w.pc.MarkPending? {
      FenceDescends(c, sh, w, out, p, now, e);
    } else if w.pc.Publish? {
      PublishDescends(c, sh, w, out, p, now, e);
    } else if w.pc.ReadBack? {
      ReadBackDescends(c, sh, w, out, p, now, e);
    } else if w.pc.Verify? {
      VerifyDescends(c, sh, w, out, p, now, e);
    } else if w.pc.FailUnavailable? || w.pc.RetryLater? || w.pc.FailConflict? || w.pc.Complete? {
      LastDescends(c, sh, w, out, p, now, e);
    }
  }

  /** Every statement leads to one nearer the end, so executeOne terminates. */
  lemma AdvanceDescends(c: Config, sh: Shared, w: Worker, now: Time, e: Env)
    ensures var n := Advance(c, sh, w, now, e); n.worker.Some? ==> Distance(n.worker.value.pc) < Distance(w.pc)
  {
    DecideDescends(sh, w, e);
    if w.execution.Returned? && w.payload.Some? {
      StagedDescends(c, sh, w, w.execution.out, w.payload.value, now, e);
    }
  }

  function Drive(c: Config, sh: Shared, w: Worker, o: Oracle): Shared
    decreases Distance(w.pc)
  {
    var n := Advance(c, sh, w, o.at(w.pc), o.env(w.pc));
    AdvanceDescends(c, sh, w, o.at(w.pc), o.env(w.pc));
    if n.worker.None? then n.shared else Drive(c, n.shared, n.worker.value, o)
  }

  /** Later statements see later clocks. */
  ghost predicate ClockRuns(o: Oracle) { forall p, q :: Distance(p) > Distance(q) ==> o.at(p) <= o.at(q) }

  lemma TwoActions(c: Config, s: Sys, a: Action, b: Action, rest: seq<Action>)
    ensures Run(c, s, [a, b] + rest) == Run(c, Apply(c, Apply(c, s, a), b), rest)
  {
    var all := [a, b] + rest;
    assert all[0] == a && all[1..] == [b] + rest && all[1..][0] == b && all[1..][1..] == rest;
  }

  lemma StepAdvances(c: Config, s: Sys, id: WorkerId, e: Env)
    requires id in s.workers && OwnOutcome(s.shared.row, e.execution)
    ensures var t := Apply(c, s, Step(id, e)); var n := Advance(c, s.shared, s.workers[id], s.now, e);
            t.shared == n.shared && t.now == s.now &&
                (n.worker.Some? ==> id in t.workers && t.workers[id] == n.worker.value)
  {
  }

  predicate SameRun(r: Row, r': Row) { r'.runId == r.runId && r'.resultId == r.resultId }

  lemma ActionKeeps(c: Config, s: Sys, a: Action)
    requires Inv(c, s)
    ensures Inv(c, Apply(c, s, a)) && SameRun(s.shared.row, Apply(c, s, a).shared.row)
  {
    Preservation.ApplyKeeps(c, s, a);
    Guarantees.ApplyIsLater(c, s, a);
  }

  lemma TickAndStepKeep(c: Config, s: Sys, id: WorkerId, now: Time, e: Env)
    requires Inv(c, s) && id in s.workers && s.now <= now && OwnOutcome(s.shared.row, e.execution)
    ensures var t := Apply(c, Apply(c, s, Tick(now - s.now)), Step(id, e));
            var n := Advance(c, s.shared, s.workers[id], now, e);
            Inv(c, t) && SameRun(s.shared.row, t.shared.row) && t.shared == n.shared && t.now == now
            && (n.worker.Some? ==> id in t.workers && t.workers[id] == n.worker.value)
  {
    var m := Apply(c, s, Tick(now - s.now));
    assert m == s.(now := now);
    ActionKeeps(c, s, Tick(now - s.now));
    ActionKeeps(c, m, Step(id, e));
    StepAdvances(c, m, id, e);
  }

  /** The clock moves on and the worker performs its next statement. */
  lemma TickAndStep(c: Config, s: Sys, id: WorkerId, now: Time, e: Env) returns (t: Sys)
    requires Inv(c, s) && id in s.workers && s.now <= now && OwnOutcome(s.shared.row, e.execution)
    ensures var n := Advance(c, s.shared, s.workers[id], now, e);
            Inv(c, t) && SameRun(s.shared.row, t.shared.row) && t.shared == n.shared && t.now == now
            && (n.worker.Some? ==> id in t.workers && t.workers[id] == n.worker.value)
    ensures forall rest :: Run(c, s, [Tick(now - s.now), Step(id, e)] + rest) == Run(c, t, rest)
  {
    TickAndStepKeep(c, s, id, now, e);
    t := Apply(c, Apply(c, s, Tick(now - s.now)), Step(id, e));
    forall rest ensures Run(c, s, [Tick(now - s.now), Step(id, e)] + rest) == Run(c, t, rest) {
      TwoActions(c, s, Tick(now - s.now), Step(id, e), rest);
    }
  }

  /** One statement of the machine as two actions of the protocol. */
  lemma StatementIsARun(c: Config, s: Sys, id: WorkerId, now: Time, e: Env)
    returns (start: seq<Action>, t: Sys, n: Next)
    requires Inv(c, s) && id in s.workers && s.now <= now && OwnOutcome(s.shared.row, e.execution)
    ensures Inv(c, t) && t.shared == n.shared && t.now == now && SameRun(s.shared.row, t.shared.row)
    ensures n.worker.Some? ==> id in t.workers && t.workers[id] == n.worker.value
    ensures n.worker.Some? ==> Distance(n.worker.value.pc) < Distance(s.workers[id].pc)
    ensures forall rest :: Run(c, s, start + rest) == Run(c, t, rest)
    ensures n == Advance(c, s.shared, s.workers[id], now, e)
  {
    start := [Tick(now - s.now), Step(id, e)];
    t := TickAndStep(c, s, id, now, e);
    n := Advance(c, s.shared, s.workers[id], now, e);
    AdvanceDescends(c, s.shared, s.workers[id], now, e);
  }

  lemma DriveUnfolds(c: Config, sh: Shared, w: Worker, o: Oracle, n: Next)
    requires n == Advance(c, sh, w, o.at(w.pc), o.env(w.pc))
    ensures Drive(c, sh, w, o) == if n.worker.None? then n.shared else Drive(c, n.shared, n.worker.value, o)
  {
  }

  lemma NothingRuns(c: Config, s: Sys)
    ensures Run(c, s, []) == s
  {
  }

  /** A call of executeOne is an execution of the protocol, made of this worker's steps
      and the passing of time. So whatever holds of every execution holds of the
      straight-line method of WorkerRun, wherever it starts. */
  lemma {:induction false} DriveIsARun(c: Config, s: Sys, id: WorkerId, o: Oracle) returns (actions: seq<Action>)
    requires Inv(c, s) && id in s.workers && ClockRuns(o) && s.now <= o.at(s.workers[id].pc)
    requires forall pc :: OwnOutcome(s.shared.row, o.env(pc).execution)
    ensures Run(c, s, actions).shared == Drive(c, s.shared, s.workers[id], o)
    ensures Inv(c, Run(c, s, actions))
    decreases Distance(s.workers[id].pc)
  {
    var pc := s.workers[id].pc;
    var start, t, n := StatementIsARun(c, s, id, o.at(pc), o.env(pc));
    DriveUnfolds(c, s.shared, s.workers[id], o, n);
    var rest := [];
    NothingRuns(c, t);
    if n.worker.Some? {
      OutcomesStayOwn(s, t, o);
      rest := DriveIsARun(c, t, id, o);
    }
    actions := start + rest;
  }

  lemma OutcomesStayOwn(s: Sys, t: Sys, o: Oracle)
    requires SameRun(s.shared.row, t.shared.row)
    requires forall pc :: OwnOutcome(s.shared.row, o.env(pc).execution)
    ensures forall pc :: OwnOutcome(t.shared.row, o.env(pc).execution)
  {
  }

  /** The worker holds an outcome and its canonical bytes. */
  predicate Carries(w: Worker, out: Outcome, p: Payload) { w.execution == Returned(out) && w.payload == Some(p) }

  // Where the machine goes from the statements that branch.

  lemma VerifyStep(c: Config, sh: Shared, w: Worker, out: Outcome, p: Payload, o: Oracle)
    requires Carries(w, out, p) && w.pc.Verify?
    ensures var e := o.env(Verify);
            var pc := if e.refused || !ValidPayload(out, p) || e.readFails then RetryLater
                      else Reconciled(Classify(sh.table, RowFor(out, p)));
            Drive(c, sh, w, o) == Drive(c, sh, w.(pc := pc), o)
  {
  }

  lemma ReadBackStep(c: Config, sh: Shared, w: Worker, out: Outcome, p: Payload, o: Oracle)
    requires Carries(w, out, p) && w.pc.ReadBack?
    ensures var same := !o.env(ReadBack).readFails && Classify(sh.table, RowFor(out, p)) == Identical;
            Drive(c, sh, w, o) == Drive(c, sh, w.(pc := if same then Complete else Reconcile(w)), o)
  {
  }

  lemma PublishStep(c: Config, sh: Shared, w: Worker, out: Outcome, p: Payload, o: Oracle)
    requires Carries(w, out, p) && w.pc.Publish?
    ensures var e := o.env(Publish);
            Drive(c, sh, w, o) ==
            if e.refused || !ValidPayload(out, p) then Drive(c, sh, w.(pc := RetryLater), o)
            else if e.mergeOk then Drive(c, sh.(table := Merge(sh.table, RowFor(out, p))), w.(pc := ReadBack), o)
            else Drive(c, sh.(inflight := sh.inflight + {RowFor(out, p)}), w.(pc := Reconcile(w)), o)
  {
  }

  lemma MarkPendingStep(c: Config, sh: Shared, w: Worker, out: Outcome, p: Payload, o: Oracle)
    requires Carries(w, out, p) && w.pc.MarkPending?
    ensures var u := Deliver(sh.row, MarkPublicationPending(sh.row, w.id, w.token, o.at(MarkPending)),
            o.env(MarkPending).fault);
            Drive(c, sh, w, o) ==
            if u.reply.Wrote? then Drive(c, sh.(row := u.row), w.(pending := true, pc := Publish), o)
            else sh.(row := u.row)
  {
  }

  lemma FenceStep(c: Config, sh: Shared, w: Worker, out: Outcome, p: Payload, o: Oracle)
    requires Carries(w, out, p) && w.pc.Fence?
    ensures var hb := Beating(sh.row, Heartbeat(sh.row, w.id, w.token, o.at(Fence), c.lease), o.env(Fence).fault);
            Drive(c, sh, w, o) ==
            if hb.1.Owned? then Drive(c, sh.(row := hb.0),
                w.(pc := if hb.1.requested then MarkCancel else MarkPending), o)
            else sh.(row := hb.0)
  {
  }

  lemma ProbeStep(c: Config, sh: Shared, w: Worker, out: Outcome, p: Payload, o: Oracle)
    requires Carries(w, out, p) && w.pc.Probe?
    ensures var hb := Beating(sh.row, Heartbeat(sh.row, w.id, w.token, o.at(Probe), c.lease), o.env(Probe).fault);
            Drive(c, sh, w, o) ==
            if hb.1 == Owned(true) then Drive(c, sh.(row := hb.0), w.(pc := MarkCancel), o) else sh.(row := hb.0)
  {
  }

  lemma StageStep(c: Config, sh: Shared, w: Worker, out: Outcome, p: Payload, o: Oracle)
    requires Carries(w, out, p) && w.pc.Stage?
    ensures var u := Deliver(sh.row, StageOutcome(sh.row, w.id, w.token, out, p, o.at(Stage)), o.env(Stage).fault);
            Drive(c, sh, w, o) ==
            if u.reply.Error? then sh.(row := u.row)
            else Drive(c, sh.(row := u.row), w.(pc := if u.reply.Wrote? then Route(w, out) else Probe), o)
  {
  }

  lemma DecideStep(c: Config, sh: Shared, w: Worker, o: Oracle)
    requires w.pc.Decide?
    ensures var n := DecideNext(sh, w, o.env(Decide));
            Drive(c, sh, w, o) == if n.worker.None? then n.shared else Drive(c, n.shared, n.worker.value, o)
  {
  }
}
