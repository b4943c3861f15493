/** When a run whose cancellation was requested before the cutoff can still complete. */
module EarlyCancel {
  import opened Wrappers
  import opened Ledger
  import opened Worker
  import opened Protocol
  import opened Preservation
  import opened Guarantees
  import opened Theorems

  /** Cancellation was requested, publication is not pending, the run is live. */
  predicate Withdrawn(s: Sys) {
    s.shared.row.cancelRequested && !s.shared.row.pending && !Terminal(s.shared.row.status)
  }

  /** On its way to completion: recovering a staged result with no flag raised, or past
      all checks. */
  predicate InPosition(w: Worker) {
    ((w.pc.Start? || w.pc.Decide?) && w.staged.Some? && !w.cancelSeen && !w.leaseLost) || w.pc.Complete?
  }

  /** The staged result needs no publication, and the owner of the live lease is in
      position. */
  predicate CanComplete(s: Sys, id: WorkerId) {
    var r := s.shared.row;
    && r.payload.Some? && Placeholder(r.payload.value.decoded) && AuthoritativeRef(r.payload.value.decoded)
    && id in s.workers && Owns(r, id, s.workers[id].token, s.now) && InPosition(s.workers[id])
  }

  const FINE := Env(NoFault, NotRun, false, false, false, true, false)

  // ---- it can ----

  /** The owner carries the staged bytes. */
  lemma OwnerCarries(c: Config, s: Sys, id: WorkerId)
    requires Inv(c, s) && CanComplete(s, id)
    ensures var w := s.workers[id]; var r := s.shared.row;
            && w.id == id && Current(s, w) && Stageable(r, r.payload.value.decoded)
            && (w.pc.Start? ==> w.staged == r.payload)
            && (!w.pc.Start? ==> w.execution == Returned(r.payload.value.decoded) && w.payload == r.payload)
  {
    assert WorkerInv(s, s.workers[id]);
  }

  /** Past the checks, a placeholder result completes whatever was requested, and without
      a row in the table. */
  lemma PlaceholderCompletes(c: Config, s: Sys, id: WorkerId)
    requires Inv(c, s) && CanComplete(s, id) && s.workers[id].pc.Complete?
    ensures var t := Apply(c, s, Step(id, FINE));
            && t.shared.row.status.Completed? && t.shared.row.cancelRequested == s.shared.row.cancelRequested
            && t.shared.table == s.shared.table
  {
    OwnerCarries(c, s, id);
  }

  lemma DecideGoesOn(c: Config, s: Sys, id: WorkerId)
    requires Inv(c, s) && Withdrawn(s) && CanComplete(s, id) && s.workers[id].pc.Decide?
    ensures var t := Apply(c, s, Step(id, FINE));
            t.shared == s.shared && CanComplete(t, id) && t.workers[id].pc.Complete?
  {
    OwnerCarries(c, s, id);
  }

  lemma StartGoesOn(c: Config, s: Sys, id: WorkerId)
    requires Inv(c, s) && CanComplete(s, id) && s.workers[id].pc.Start?
    ensures var t := Apply(c, s, Step(id, FINE)); t.shared == s.shared && CanComplete(t, id) && t.workers[id].pc.Decide?
  {
    OwnerCarries(c, s, id);
  }

  lemma FirstThen(c: Config, s: Sys, a: Action, rest: seq<Action>)
    ensures Run(c, s, [a] + rest) == Run(c, Apply(c, s, a), rest)
  {
    assert ([a] + rest)[1..] == rest;
  }

  /** The owner's own steps, at most three, complete the run. */
  lemma {:induction false} OwnerCompletes(c: Config, s: Sys, id: WorkerId) returns (more: seq<Action>)
    requires Inv(c, s) && Withdrawn(s) && CanComplete(s, id)
    ensures Run(c, s, more).shared.row.status.Completed?
    decreases if s.workers[id].pc.Start? then 2 else if s.workers[id].pc.Decide? then 1 else 0
  {
    var a := Step(id, FINE);
    var t := Apply(c, s, a);
    var rest := [];
    if s.workers[id].pc.Complete? {
      PlaceholderCompletes(c, s, id);
    } else {
      ApplyKeeps(c, s, a);
      if s.workers[id].pc.Start? {
        StartGoesOn(c, s, id);
      } else {
        DecideGoesOn(c, s, id);
      }
      rest := OwnerCompletes(c, t, id);
    }
    more := [a] + rest;
    FirstThen(c, s, a, rest);
  }

  // ---- otherwise it cannot ----

  /** Not completed, and nobody in position. */
  ghost predicate Hopeless(s: Sys) {
    && s.shared.row.cancelRequested && !s.shared.row.pending && !s.shared.row.status.Completed?
    && (Terminal(s.shared.row.status) || forall id :: !CanComplete(s, id))
  }

  /** A withdrawn run is running, and an action leaves its row alone, extends its lease
      or ends it. */
  predicate Narrow(s: Sys, r': Row) {
    var r := s.shared.row;
    r' == r || r' == r.(expires := r'.expires) || (Terminal(r'.status) && r'.cancelRequested && !r'.pending)
  }

  lemma ChangesAreNarrow(c: Config, s: Sys, r': Row)
    requires Inv(c, s) && Withdrawn(s) && SomeChange(c, s, r')
    ensures s.shared.row.status.Running? && Narrow(s, r')
  {
    var k :| Changed(c, s, r', k);
  }

  /** Other workers see what they saw, or no live lease of theirs. */
  lemma BystandersStay(c: Config, s: Sys, s': Sys, j: WorkerId)
    requires Inv(c, s) && Withdrawn(s) && Narrow(s, s'.shared.row) && s.now <= s'.now
    requires j in s.workers && j in s'.workers && s'.workers[j] == s.workers[j]
    requires s'.shared.row == s.shared.row || Terminal(s'.shared.row.status) ||
            s.shared.row.token != Some(s.workers[j].token)
    ensures CanComplete(s', j) ==> CanComplete(s, j)
  {
  }

  lemma AbortDoesNotComplete(c: Config, sh: Shared, w: Worker, now: Time, e: Env)
    requires !sh.row.status.Completed? && (w.pc.MarkCancel? || w.pc.FailRun? || w.pc.FailMalfunction?)
    ensures !Advance(c, sh, w, now, e).shared.row.status.Completed?
  {
  }

  lemma FailDoesNotComplete(c: Config, sh: Shared, w: Worker, out: Outcome, p: Payload, now: Time, e: Env)
    requires !sh.row.status.Completed? && (w.pc.FailUnavailable? || w.pc.FailConflict? || w.pc.RetryLater?)
    ensures !AdvanceStaged(c, sh, w, out, p, now, e).shared.row.status.Completed?
  {
  }

  lemma EarlyDoesNotComplete(c: Config, sh: Shared, w: Worker, out: Outcome, p: Payload, now: Time, e: Env)
    requires !sh.row.status.Completed? && (w.pc.Stage? || w.pc.Probe? || w.pc.Fence? || w.pc.MarkPending?)
    ensures !AdvanceStaged(c, sh, w, out, p, now, e).shared.row.status.Completed?
  {
  }

  lemma ReadDoesNotComplete(c: Config, sh: Shared, w: Worker, out: Outcome, p: Payload, now: Time, e: Env)
    requires !sh.row.status.Completed? && (w.pc.Publish? || w.pc.ReadBack? || w.pc.Verify?)
    ensures AdvanceStaged(c, sh, w, out, p, now, e).shared.row == sh.row
  {
  }

  lemma OnlyCompleteCompletes(c: Config, sh: Shared, w: Worker, now: Time, e: Env)
    requires !sh.row.status.Completed? && !w.pc.Complete?
    ensures !Advance(c, sh, w, now, e).shared.row.status.Completed?
  {
    if w.pc.MarkCancel? || w.pc.FailRun? || w.pc.FailMalfunction? {
      AbortDoesNotComplete(c, sh, w, now, e);
    } else if w.execution.Returned? && w.payload.Some? {
      var out, p := w.execution.out, w.payload.value;
      if w.pc.FailUnavailable? || w.pc.FailConflict? || w.pc.RetryLater? {
        FailDoesNotComplete(c, sh, w, out, p, now, e);
      } else if w.pc.Stage? || w.pc.Probe? || w.pc.Fence? || w.pc.MarkPending? {
        EarlyDoesNotComplete(c, sh, w, out, p, now, e);
      } else if w.pc.Publish? || w.pc.ReadBack? || w.pc.Verify? {
        ReadDoesNotComplete(c, sh, w, out, p, now, e);
      }
    }
  }

  /** A completion is written by an owner that was in position. */
  lemma CompletionWasPossible(c: Config, s: Sys, id: WorkerId, e: Env)
    requires Inv(c, s) && Withdrawn(s) && id in s.workers && s.workers[id].pc.Complete?
    requires Advance(c, s.shared, s.workers[id], s.now, e).shared.row.status.Completed?
    ensures CanComplete(s, id)
  {
    assert WorkerInv(s, s.workers[id]);
  }

  /** Who is in position after a step was so before it. */
  lemma PositionWasHeld(c: Config, s: Sys, w: Worker, e: Env)
    requires Ready(c, s, w, e) && Withdrawn(s) && Current(s, w)
    ensures var n := NextWorker(c, s, w, e); n.Some? && InPosition(n.value) ==> InPosition(w)
  {
    if w.pc.Stage? {
      StageGoes(c, s, w, e);
    } else if w.pc.Probe? || w.pc.Fence? {
      FenceBeats(c, s, w, e);
    } else if w.pc.MarkPending? {
      MarkPendingMarks(c, s, w, e);
    } else if w.pc.MarkCancel? || w.pc.FailRun? || w.pc.FailMalfunction? || w.pc.FailUnavailable? {
      AbortEnds(c, s, w, e);
    } else if w.pc.Decide? {
      DecidePosition(s.shared, w, e);
    } else if w.pc.Start? {
      StartStarts(c, s, w, e);
    }
  }

  lemma DecidePosition(sh: Shared, w: Worker, e: Env)
    requires w.pc.Decide? && !w.pending
    ensures var n := DecideNext(sh, w, e).worker; n.Some? && InPosition(n.value) ==> InPosition(w)
  {
  }

  /** A worker's step, seen from outside: the row, the worker itself and the others. */
  lemma StepIsNarrow(c: Config, s: Sys, id: WorkerId, e: Env)
    requires Inv(c, s) && Withdrawn(s) && id in s.workers && OwnOutcome(s.shared.row, e.execution)
    ensures var r, r' := s.shared.row, Apply(c, s, Step(id, e)).shared.row;
            Narrow(s, r') && (r' == r || Terminal(r'.status) || r.token == Some(s.workers[id].token))
  {
    ApplyChanges(c, s, Step(id, e));
    ChangesAreNarrow(c, s, Apply(c, s, Step(id, e)).shared.row);
    if s.shared.row.token != Some(s.workers[id].token) {
      StaleStatement(c, s.shared, s.workers[id], s.now, e);
    }
  }

  lemma StepMakesNoHope(c: Config, s: Sys, id: WorkerId, e: Env, j: WorkerId)
    requires Inv(c, s) && Withdrawn(s) && Hopeless(s) && id in s.workers && OwnOutcome(s.shared.row, e.execution)
    requires !Terminal(Apply(c, s, Step(id, e)).shared.row.status)
    ensures !CanComplete(Apply(c, s, Step(id, e)), j)
  {
    var s' := Apply(c, s, Step(id, e));
    StepIsNarrow(c, s, id, e);
    if j in s'.workers {
      if j == id {
        OwnStep(c, s, id, e);
      } else {
        BystandersStay(c, s, s', j);
      }
    }
  }

  lemma OwnStep(c: Config, s: Sys, id: WorkerId, e: Env)
    requires Inv(c, s) && Withdrawn(s) && id in s.workers && OwnOutcome(s.shared.row, e.execution)
    requires var s' := Apply(c, s, Step(id, e)); Narrow(s, s'.shared.row) && !Terminal(s'.shared.row.status)
    ensures CanComplete(Apply(c, s, Step(id, e)), id) ==> CanComplete(s, id)
  {
    var s', w := Apply(c, s, Step(id, e)), s.workers[id];
    assert WorkerInv(s, w);
    if CanComplete(s', id) {
      var n := NextWorker(c, s, w, e);
      assert n == Some(s'.workers[id]) && s'.shared.row == After(c, s, w, e).shared.row;
      StatementKeeps(c, s, w, e);
      PositionWasHeld(c, s, w, e);
      OwnershipWasHeld(c, s, w, e);
    }
  }

  /** A step can extend the lease of its own worker only while that is live. */
  lemma OwnershipWasHeld(c: Config, s: Sys, w: Worker, e: Env)
    requires Ready(c, s, w, e) && Withdrawn(s) && Narrow(s, After(c, s, w, e).shared.row)
    requires Owns(After(c, s, w, e).shared.row, w.id, w.token, s.now)
    ensures Owns(s.shared.row, w.id, w.token, s.now)
  {
    if w.pc.Probe? || w.pc.Fence? {
      ExtensionNeedsALease(c, s, w, e);
    } else {
      OthersDoNotExtend(c, s, w, e);
    }
  }

  lemma ExtensionNeedsALease(c: Config, s: Sys, w: Worker, e: Env)
    requires Ready(c, s, w, e) && (w.pc.Probe? || w.pc.Fence?)
    ensures After(c, s, w, e).shared.row == s.shared.row || Owns(s.shared.row, w.id, w.token, s.now)
  {
  }

  lemma OthersDoNotExtend(c: Config, s: Sys, w: Worker, e: Env)
    requires Ready(c, s, w, e) && Withdrawn(s) && !w.pc.Probe? && !w.pc.Fence?
    ensures var r, r' := s.shared.row, After(c, s, w, e).shared.row; r' == r || Terminal(r'.status)
  {
    if w.pc.Stage? {
      StageStages(c, s, w, e);
      StagingNeedsNoRequest(c, s, w, e);
    } else if w.pc.MarkPending? {
      MarkPendingMarks(c, s, w, e);
    } else if w.pc.Publish? {
      PublishPublishes(c, s, w, e);
    } else if w.pc.ReadBack? || w.pc.Verify? {
      ReadReads(c, s, w, e);
    } else if w.pc.RetryLater? {
      RetryRetries(c, s, w, e);
    } else if w.pc.Complete? {
      CompleteEnds(c, s, w, e);
    } else if w.pc.Start? || w.pc.Executing? || w.pc.Decide? {
      QuietChanges(c, s, w, e);
    } else {
      AbortEnds(c, s, w, e);
    }
  }

  lemma StagingNeedsNoRequest(c: Config, s: Sys, w: Worker, e: Env)
    requires Ready(c, s, w, e) && w.pc.Stage? && s.shared.row.cancelRequested
    ensures After(c, s, w, e).shared.row == s.shared.row
  {
  }

  lemma StepStaysHopeless(c: Config, s: Sys, id: WorkerId, e: Env)
    requires Inv(c, s) && Withdrawn(s) && Hopeless(s) && id in s.workers && OwnOutcome(s.shared.row, e.execution)
    ensures Hopeless(Apply(c, s, Step(id, e)))
  {
    var s' := Apply(c, s, Step(id, e));
    StepIsNarrow(c, s, id, e);
    StepDoesNotComplete(c, s, id, e);
    if !Terminal(s'.shared.row.status) {
      forall j ensures !CanComplete(s', j) {
        StepMakesNoHope(c, s, id, e, j);
      }
    }
  }

  lemma StepDoesNotComplete(c: Config, s: Sys, id: WorkerId, e: Env)
    requires Inv(c, s) && Withdrawn(s) && Hopeless(s) && id in s.workers && OwnOutcome(s.shared.row, e.execution)
    ensures !Apply(c, s, Step(id, e)).shared.row.status.Completed?
  {
    if s.workers[id].pc.Complete? {
      if Advance(c, s.shared, s.workers[id], s.now, e).shared.row.status.Completed? {
        CompletionWasPossible(c, s, id, e);
      }
    } else {
      OnlyCompleteCompletes(c, s.shared, s.workers[id], s.now, e);
    }
  }

  /** A beat extends a live lease and raises flags. */
  lemma BeatMakesNoHope(c: Config, s: Sys, id: WorkerId, f: Fault, late: bool, j: WorkerId)
    requires Inv(c, s) && Withdrawn(s) && id in s.workers
    ensures CanComplete(DoBeat(c, s, id, f, late), j) ==> CanComplete(s, j)
  {
    BeatBeats(c, s, id, f, late);
    BeatNeedsALease(c, s, id, f, late);
    assert WorkerInv(s, s.workers[id]);
  }

  lemma BeatNeedsALease(c: Config, s: Sys, id: WorkerId, f: Fault, late: bool)
    requires id in s.workers
    ensures var s' := DoBeat(c, s, id, f, late); var w := s.workers[id];
            && (s'.shared.row == s.shared.row || Owns(s.shared.row, w.id, w.token, s.now))
            && (id in s'.workers && !s'.workers[id].cancelSeen ==> !w.cancelSeen)
            && (id in s'.workers && !s'.workers[id].leaseLost ==> !w.leaseLost)
  {
  }

  lemma BeatStaysHopeless(c: Config, s: Sys, id: WorkerId, f: Fault, late: bool)
    requires Inv(c, s) && Withdrawn(s) && Hopeless(s)
    ensures Hopeless(DoBeat(c, s, id, f, late))
  {
    BeatBeats(c, s, id, f, late);
    if id in s.workers {
      forall j ensures !CanComplete(DoBeat(c, s, id, f, late), j) {
        BeatMakesNoHope(c, s, id, f, late, j);
      }
    }
  }

  lemma OutsideStaysHopeless(c: Config, s: Sys, a: Action)
    requires Inv(c, s) && Withdrawn(s) && Hopeless(s) && !a.Step? && !a.HeartbeatTick? && !a.Lease?
    ensures Hopeless(Apply(c, s, a))
  {
    var s' := Apply(c, s, a);
    ApplyChanges(c, s, a);
    ChangesAreNarrow(c, s, s'.shared.row);
    OutsideEnds(c, s, a);
    if !Terminal(s'.shared.row.status) {
      forall j ensures !CanComplete(s', j) {
        if j in s'.workers {
          BystandersStay(c, s, s', j);
        }
      }
    }
  }

  lemma OutsideEnds(c: Config, s: Sys, a: Action)
    requires Inv(c, s) && Withdrawn(s) && !a.Step? && !a.HeartbeatTick? && !a.Lease?
    ensures var r, r' := s.shared.row, Apply(c, s, a).shared.row;
            (r' == r || Terminal(r'.status)) && !r'.status.Completed?
    ensures var s' := Apply(c, s, a);
            s.now <= s'.now && forall j :: j in s'.workers ==> j in s.workers && s'.workers[j] == s.workers[j]
  {
  }

  lemma LeaseStaysHopeless(c: Config, s: Sys, a: Action)
    requires Inv(c, s) && Withdrawn(s) && Hopeless(s) && a.Lease?
    ensures Apply(c, s, a) == s
  {
    LeaseGrants(c, s, a);
  }

  lemma ActionStaysHopeless(c: Config, s: Sys, a: Action)
    requires Inv(c, s) && Hopeless(s)
    ensures Hopeless(Apply(c, s, a))
  {
    if Terminal(s.shared.row.status) {
      ApplyIsLater(c, s, a);
    } else if a.Lease? {
      LeaseStaysHopeless(c, s, a);
    } else if a.HeartbeatTick? {
      BeatStaysHopeless(c, s, a.w, a.fault, a.late);
    } else if a.Step? {
      if a.w in s.workers && OwnOutcome(s.shared.row, a.env.execution) {
        StepStaysHopeless(c, s, a.w, a.env);
      }
    } else {
      OutsideStaysHopeless(c, s, a);
    }
  }

  lemma {:induction false} HopelessForever(c: Config, s: Sys, more: seq<Action>)
    requires Inv(c, s) && Hopeless(s)
    ensures Hopeless(Run(c, s, more))
    decreases |more|
  {
    if more != [] {
      ActionStaysHopeless(c, s, more[0]);
      ApplyKeeps(c, s, more[0]);
      HopelessForever(c, Apply(c, s, more[0]), more[1..]);
    }
  }

  /** A run whose cancellation was requested before the cutoff can still complete exactly
      when its staged result is a placeholder and the owner of a live lease is in
      position: before the flags are read with none raised, or past that. Nobody can come
      into that position later. */
  lemma WithdrawnRunCompletesExactlyWhen(c: Config, s: Sys)
    requires Inv(c, s) && Withdrawn(s)
    ensures (exists more :: Run(c, s, more).shared.row.status.Completed?) <==> exists id :: CanComplete(s, id)
  {
    if exists id :: CanComplete(s, id) {
      var id :| CanComplete(s, id);
      var more := OwnerCompletes(c, s, id);
    } else {
      forall more ensures !Run(c, s, more).shared.row.status.Completed? {
        HopelessForever(c, s, more);
      }
    }
  }
}
