/** No run gets stuck, and every run makes only so many steps. */
module Progress {
  import opened Wrappers
  import opened Ledger
  import opened Worker
  import opened Protocol
  import opened Preservation
  import opened Guarantees

  /** Lease, retry time and creation time have all passed. */
  predicate TimesPassed(r: Row, now: Time) {
    && r.createdAt <= now
    && (r.expires.Some? ==> r.expires.value <= now)
    && (r.retryAt.Some? ==> r.retryAt.value <= now)
  }

  /** In every reachable live state, once its times have passed, at most one of the three
      recovery statements applies to the run; and one does, unless the run was never
      leased and no attempt is configured. */
  lemma NoRunIsStuck(c: Config, s0: Sys, actions: seq<Action>, now: Time)
    requires Init(s0)
    requires var r := Run(c, s0, actions).shared.row; !Terminal(r.status) && TimesPassed(r, now)
    ensures var r := Run(c, s0, actions).shared.row;
            var lease := Leasable(r, now, c.maxAttempts);
            var recover := OrphanCanceled(r, now);
            var sweep := Exhausted(r, now, c.maxAttempts);
            && !(lease && recover) && !(lease && sweep) && !(recover && sweep)
            && (lease || recover || sweep <==> c.maxAttempts >= 1 || r.status.Running? || r.payload.Some?)
  {
    Reach(c, s0, actions);
  }

  function Max0(n: int): nat { if n < 0 then 0 else n }

  /** How much can still happen to a run: zero once it is terminal. */
  function Rank(c: Config, r: Row): nat {
    if Terminal(r.status) then 0
    else 1 + (if r.payload.None? then 1 + Max0(c.maxAttempts - r.attempt) else 0)
           + (if r.pending then 0 else 1)
           + Max0(c.maxVerifications - r.verifications)
           + (if r.cancelRequested then 0 else 1)
  }

  /** Writes that are not counted: lease extensions, outbox columns, and leasing a
      run whose result is already staged. */
  predicate Uncounted(r: Row, r': Row) {
    || r'.(expires := r.expires, outbox := r.outbox) == r
    || (r.payload.Some? && r' == r.(status := Running, workerId := r'.workerId, token := r'.token,
                                    expires := r'.expires, attempt := r.attempt + 1, retryAt := None))
  }

  /** Every other lifecycle write brings the run closer to its end. */
  lemma WritesLowerTheRank(c: Config, s: Sys, a: Action)
    requires Inv(c, s)
    ensures var r := s.shared.row; var r' := Apply(c, s, a).shared.row;
            if Uncounted(r, r') then Rank(c, r') == Rank(c, r) else Rank(c, r') < Rank(c, r)
  {
    ApplyChanges(c, s, a);
    RankFalls(c, s, Apply(c, s, a).shared.row);
  }

  lemma RankFalls(c: Config, s: Sys, r': Row)
    requires Inv(c, s) && SomeChange(c, s, r')
    ensures var r := s.shared.row;
            if Uncounted(r, r') then Rank(c, r') == Rank(c, r) else Rank(c, r') < Rank(c, r)
  {
    var k :| Changed(c, s, r', k);
    if k.Same? || k.Extended? || k.OutboxOnly? || k.Leasing? {
      QuietRank(c, s, r', k);
    } else {
      LowerRank(c, s, r', k);
    }
  }

  lemma QuietRank(c: Config, s: Sys, r': Row, k: Change)
    requires Inv(c, s) && Changed(c, s, r', k) && (k.Same? || k.Extended? || k.OutboxOnly? || k.Leasing?)
    ensures var r := s.shared.row;
            if Uncounted(r, r') then Rank(c, r') == Rank(c, r) else Rank(c, r') < Rank(c, r)
  {
  }

  lemma LowerRank(c: Config, s: Sys, r': Row, k: Change)
    requires Inv(c, s) && Changed(c, s, r', k) && !k.Same? && !k.Extended? && !k.OutboxOnly? && !k.Leasing?
    ensures var r := s.shared.row;
            if Uncounted(r, r') then Rank(c, r') == Rank(c, r) else Rank(c, r') < Rank(c, r)
  {
  }

  function CountedWrites(c: Config, s: Sys, actions: seq<Action>): nat
    decreases |actions|
  {
    if actions == [] then 0
    else
      var s' := Apply(c, s, actions[0]);
      (if Uncounted(s.shared.row, s'.shared.row) then 0 else 1) + CountedWrites(c, s', actions[1..])
  }

  lemma {:induction false} WritesAreBoundedByRank(c: Config, s: Sys, actions: seq<Action>)
    requires Inv(c, s)
    ensures CountedWrites(c, s, actions) + Rank(c, Run(c, s, actions).shared.row) <= Rank(c, s.shared.row)
    decreases |actions|
  {
    if actions != [] {
      WritesLowerTheRank(c, s, actions[0]);
      ApplyKeeps(c, s, actions[0]);
      WritesAreBoundedByRank(c, Apply(c, s, actions[0]), actions[1..]);
    }
  }

  /** Bounded life: whatever happens, a run sees at most this many lifecycle writes,
      and it goes back to the queue at most maxVerifications - 1 times. */
  lemma LifeIsBounded(c: Config, s0: Sys, actions: seq<Action>)
    requires Init(s0)
    ensures CountedWrites(c, s0, actions) <= 4 + Max0(c.maxAttempts) + Max0(c.maxVerifications)
    ensures Run(c, s0, actions).hist.requeues <= Max0(c.maxVerifications - 1)
  {
    InitInv(c, s0);
    WritesAreBoundedByRank(c, s0, actions);
    Reach(c, s0, actions);
  }

  /** The requeue delay starts at the backoff and doubles with every attempt, up to five
      minutes; a delay that has come so far, also by a longer backoff, stays as it is. */
  lemma DelayIsCappedDoubling(backoff: Time, attempt: nat)
    ensures VerificationDelay(backoff, 0) == backoff
    ensures var delay := VerificationDelay(backoff, attempt);
            VerificationDelay(backoff, attempt + 1) ==
            if delay >= 300_000_000_000 then delay
            else if 2 * delay > 300_000_000_000 then 300_000_000_000
            else 2 * delay
  {
    assert Pow2(0) == 1;
    assert backoff * Pow2(attempt + 1) == 2 * (backoff * Pow2(attempt));
  }
}
