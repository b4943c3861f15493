/** The callback outbox over whole executions, and the dispatcher that drains it. */
module Outbox {
  import opened Wrappers
  import opened Ledger
  import opened Worker
  import opened Protocol
  import opened Preservation
  import opened Guarantees
  import RunStore

  predicate Settled(r: Row) { r.outbox.state == Some(Delivered) || r.outbox.state == Some(ConfigurationFailed) }

  /** For a run with a callback the event waits exactly as long as the run is live;
      for a run without one there is never an event. */
  lemma EventWaitsForTheRun(c: Config, s0: Sys, actions: seq<Action>)
    requires Init(s0)
    ensures var r := Run(c, s0, actions).shared.row;
            && (r.outbox.hasUrl ==> (r.outbox.state == Some(Waiting) <==> !Terminal(r.status)))
            && (!r.outbox.hasUrl ==> r.outbox.state.None? && forall now :: !Claimable(r, now))
  {
    Reach(c, s0, actions);
  }

  /** A claim that was not resolved and has not expired. */
  predicate LiveClaim(s: Sys, k: Token) { k in s.hist.claims && k !in s.hist.resolved && s.hist.claims[k] > s.now }

  /** At most one delivery is in progress at any time. */
  lemma OneLiveClaim(c: Config, s0: Sys, actions: seq<Action>, i: Token, j: Token)
    requires Init(s0)
    requires LiveClaim(Run(c, s0, actions), i) && LiveClaim(Run(c, s0, actions), j)
    ensures i == j && Claims(Run(c, s0, actions).shared.row, i)
  {
    Reach(c, s0, actions);
  }

  /** Spent: resolved, or superseded by a newer claim. */
  predicate Spent(s: Sys, k: Token) { k in s.hist.claims && s.shared.row.outbox.token != Some(k) }

  lemma SpentStays(c: Config, s: Sys, a: Action, k: Token)
    requires Inv(c, s) && Spent(s, k)
    ensures Spent(Apply(c, s, a), k)
  {
    ApplyIsLater(c, s, a);
    if a.Claim? {
      ClaimIsFresh(c, s, a.token, a.lease, k);
    } else {
      TokenOnlyClears(c, s, a);
    }
  }

  lemma ClaimIsFresh(c: Config, s: Sys, tok: Token, lease: Time, k: Token)
    requires Inv(c, s) && Spent(s, k)
    ensures DoClaim(s, tok, lease).shared.row.outbox.token != Some(k)
  {
  }

  lemma TokenOnlyClears(c: Config, s: Sys, a: Action)
    requires Inv(c, s) && !a.Claim?
    ensures var o := s.shared.row.outbox; var o' := Apply(c, s, a).shared.row.outbox;
            o'.token == o.token || o'.token.None?
  {
    if a.Resolve? {
    } else {
      OutboxOfRunActions(c, s, a);
    }
  }

  /** Actions on the run itself leave the outbox alone or file its event. */
  lemma OutboxOfRunActions(c: Config, s: Sys, a: Action)
    requires Inv(c, s) && !a.Claim? && !a.Resolve?
    ensures var o := s.shared.row.outbox; var o' := Apply(c, s, a).shared.row.outbox;
            o' == o || (o.state == Some(Waiting) && o' == o.(state := Some(Pending), nextAt := s.now))
  {
    if a.Step? && a.w in s.workers && OwnOutcome(s.shared.row, a.env.execution) {
      OutboxOfStatement(c, s, s.workers[a.w], a.env);
    } else if a.HeartbeatTick? {
      BeatBeats(c, s, a.w, a.fault, a.late);
    }
  }

  lemma OutboxOfStatement(c: Config, s: Sys, w: Worker, e: Env)
    requires Ready(c, s, w, e)
    ensures var o := s.shared.row.outbox; var o' := After(c, s, w, e).shared.row.outbox;
            o' == o || (o.state == Some(Waiting) && o' == o.(state := Some(Pending), nextAt := s.now))
  {
    if w.pc.Stage? {
      StageChanges(c, s, w, e);
    } else if w.pc.Start? || w.pc.Executing? || w.pc.Decide? {
      QuietChanges(c, s, w, e);
    } else if w.pc.Probe? || w.pc.Fence? {
      FenceBeats(c, s, w, e);
    } else if w.pc.MarkPending? {
      MarkPendingMarks(c, s, w, e);
    } else if w.pc.Publish? {
      PublishPublishes(c, s, w, e);
    } else if w.pc.ReadBack? || w.pc.Verify? {
      ReadReads(c, s, w, e);
    } else if w.pc.RetryLater? {
      RetryRetries(c, s, w, e);
    } else if w.pc.Complete? {
      CompleteEnds(c, s, w, e);
    } else {
      AbortEnds(c, s, w, e);
    }
  }

  lemma {:induction false} SpentForever(c: Config, s: Sys, more: seq<Action>, k: Token)
    requires Inv(c, s) && Spent(s, k)
    ensures Spent(Run(c, s, more), k)
    decreases |more|
  {
    if more != [] {
      SpentStays(c, s, more[0], k);
      ApplyKeeps(c, s, more[0]);
      SpentForever(c, Apply(c, s, more[0]), more[1..], k);
    }
  }

  /** Each claim resolves at most once: when it has been resolved or superseded, a
      further resolution under it changes nothing in any later state; and there are
      exactly as many resolutions as resolved claims. */
  lemma ClaimResolvesOnce(c: Config, s0: Sys, actions: seq<Action>, more: seq<Action>, k: Token, res: Resolution)
    requires Init(s0) && Spent(Run(c, s0, actions), k)
    ensures var t := Run(c, Run(c, s0, actions), more);
            Apply(c, t, Resolve(k, res)) == t && t.hist.deliveries == |t.hist.resolved|
  {
    Reach(c, s0, actions);
    SpentForever(c, Run(c, s0, actions), more, k);
    RunKeeps(c, Run(c, s0, actions), more);
  }

  /** A resolved claim is spent. */
  lemma ResolvedIsSpent(c: Config, s0: Sys, actions: seq<Action>, k: Token)
    requires Init(s0) && k in Run(c, s0, actions).hist.resolved
    ensures Spent(Run(c, s0, actions), k)
  {
    Reach(c, s0, actions);
  }

  lemma SettledStep(c: Config, s: Sys, a: Action)
    requires Inv(c, s) && Settled(s.shared.row)
    ensures Apply(c, s, a).shared.row == s.shared.row
  {
    ApplyIsLater(c, s, a);
    if !a.Claim? && !a.Resolve? {
      OutboxOfRunActions(c, s, a);
    }
  }

  /** Delivered and configuration_failed are final: from there on no action changes
      any column of the row. */
  lemma {:induction false} SettledForever(c: Config, s: Sys, more: seq<Action>)
    requires Inv(c, s) && Settled(s.shared.row)
    ensures Run(c, s, more).shared.row == s.shared.row
    decreases |more|
  {
    if more != [] {
      SettledStep(c, s, more[0]);
      ApplyKeeps(c, s, more[0]);
      SettledForever(c, Apply(c, s, more[0]), more[1..]);
    }
  }

  /** No event is lost: a terminal run with a callback is claimable, once its retry
      time and any delivery lease have passed, exactly when it is not settled. */
  lemma UnsettledIsClaimable(c: Config, s0: Sys, actions: seq<Action>, now: Time)
    requires Init(s0)
    requires var r := Run(c, s0, actions).shared.row;
             && Terminal(r.status) && r.outbox.hasUrl && r.outbox.nextAt <= now
             && (r.outbox.expires.Some? ==> r.outbox.expires.value <= now)
    ensures var r := Run(c, s0, actions).shared.row; Claimable(r, now) <==> !Settled(r)
  {
    Reach(c, s0, actions);
    match Run(c, s0, actions).shared.row.outbox.state.value {
      case Waiting =>
      case Pending =>
      case Delivering =>
      case Retry =>
      case Delivered =>
      case ConfigurationFailed =>
    }
  }

  // ---- the dispatcher ----

  /** What the HTTP client returned. */
  datatype Transport = Unreachable | Response(status: int, retryAfter: Time)

  predicate RetryableStatus(status: int) {
    status in {408, 425, 429, 500, 502, 503, 504}
  }

  class CallbackDispatcher {
    const configured: bool   // the bearer token is not empty

    constructor (tokenConfigured: bool)
      ensures configured == tokenConfigured
    {
      configured := tokenConfigured;
    }

    /** deliver and retry: one claimed event. `encoded` says that payload and request
        could be built; `local` is the jittered backoff of callbackRetryDelay. The
        event is delivered only by HTTP 202, given up only where the design says so,
        and otherwise rescheduled no earlier than both delays demand. */
    method Deliver(row: RunStore.LedgerRow, claim: Token, encoded: bool, answer: Transport, local: Time, now: Time)
      returns (res: Resolution)
      modifies row
      ensures row.View() == ResolveCallback(old(row.View()), claim, res, now).row
      ensures res == Accepted <==> configured && encoded && answer.Response? && answer.status == 202
      ensures res == Misconfigured <==>
              !configured || !encoded
              || (answer.Response? && answer.status != 202
                  && answer.status !in {408, 425, 429, 500, 502, 503, 504})
      ensures res.RetryAfter? ==>
              var asked := if answer.Response? then answer.retryAfter else 0;
              res.delay >= local && res.delay >= asked && (res.delay == local || res.delay == asked)
      ensures var o, o' := old(row.outbox), row.outbox;
              if o.state == Some(Delivering) && o.token == Some(claim) then
                && o'.attempt == o.attempt + 1 && o'.token.None? && o'.expires.None? && o'.hasUrl == o.hasUrl
                && (res == Accepted ==> o'.state == Some(Delivered) && o'.nextAt == o.nextAt)
                && (res == Misconfigured ==> o'.state == Some(ConfigurationFailed) && o'.nextAt == o.nextAt)
                && (res.RetryAfter? ==> o'.state == Some(Retry) && o'.nextAt == now + res.delay)
              else o' == o
    {
      if !configured || !encoded {
        res := Misconfigured;
      } else {
        match answer {
          case Unreachable => res := RetryAfter(Delay(local, 0));
          case Response(status, retryAfter) =>
            if status == 202 {
              res := Accepted;
            } else if RetryableStatus(status) {
              res := RetryAfter(Delay(local, retryAfter));
            } else {
              res := Misconfigured;
            }
        }
      }
      var _ := row.ResolveCallback(claim, res, now);
    }

    static function Delay(local: Time, retryAfter: Time): Time {
      if retryAfter > local then retryAfter else local
    }
  }
}
