# Verified model of the defense-validation service

The service runs defense validations asynchronously: a PostgreSQL row per run, leased to
workers, whose canonical result is staged, published to an insert-only Databricks table and
announced by a callback. Around it sit the validators of the shared contracts, the canonical
JSON that every digest is taken of, and the collapse of WAF alternatives into one rule. This
project models those parts in Dafny and proves what they guarantee.

`dafny verify dfyconfig.toml` checks everything.

| modules | what they hold |
|---|---|
| `Ledger`, `RunStore` | the guarded UPDATEs of the ledger row, as functions and as methods that assign the columns in place |
| `ResultSink` | the insert-only table: MERGE, Publish, Verify and the readback |
| `Worker`, `Machine`, `WorkerRun` | `executeOne`, cut at every statement that touches shared state, that machine run to its end, and the straight-line method that performs the same statements |
| `CallResults`, `Effects`, `Endings` | what a call, a statement and a whole run leave behind, column by column and without naming the functions that compute it |
| `Protocol`, `Preservation`, `Guarantees` | any number of workers, crashes, lost requests and replies, cancels, sweeps, late and foreign MERGEs and callbacks in any order; the invariant that ties each worker's position and snapshot to the row; what can change and what never changes again |
| `Theorems`, `Progress`, `Outbox`, `EarlyCancel`, `Limits` | safety, absence of stuck runs, bounded life, the callback outbox, what a request to cancel still lets happen, and where the protocol does less than one may expect |
| `JoinedText` | texts joined by a separator, used for every key the code builds that way |
| `RuleCollapse`, `CollapseMeaning`, `CollapseAcceptance`, `CollapseExactness` | the OR-of-ANDs collapse, its meaning, which sets are merged into what, and exactly when the meaning is kept |
| `CanonicalText`, `CanonicalJson`, `JsonReader`, `StrictJson` | RFC 8785 output, a reader of RFC 8259 to read it back, and the duplicate-key recogniser of RFC 7493 |
| `Collections`, `SharedRefs`, `Coverage`, `Completeness`, `CompletenessLaws`, `CandidateBundle`, `BundleLaws`, `ArrayIndex`, `JsonPointer`, `ContentUri`, `ApplicationUnit` | the validators of the shared contracts |

An execution of the protocol is a sequence of actions; an action that is not enabled changes
nothing, so a statement about `Run(c, s0, actions)` speaks of every reachable state, and one
about `Run(c, Run(c, s0, actions), more)` of every later one. `History` counts what no
statement of the program reads: executor starts, Publish calls, bytes handed to the sink,
tokens, claims.

## What the code does that its description does not say

- README.md:85-86 says that recovery republishes the staged bytes. The code only verifies once
  publication is pending (`api/worker.go:252-282`), and the model follows the code: past the
  cutoff, the run's row can still come into the table without another writer exactly when a
  worker stands before its Publish call, a MERGE is under way, or the row is there already
  (`Limits.PublishedExactlyWhenNotStranded`). A crash right after the cutoff leaves none of
  these (`Limits.CrashAtTheCutoffStrands`).
- The cancellation cutoff has one exception, the placeholder reference of a service without an
  authoritative sink. A run whose cancellation came first can still complete exactly when its
  staged result is a placeholder and the owner of a live lease is in position
  (`EarlyCancel.WithdrawnRunCompletesExactlyWhen`), which does happen
  (`Limits.PlaceholderRunOutlivesItsCancellation`).
- A worker delayed between its lease and the executor starts the executor even after another
  worker has staged a result; the staged bytes stay (`Limits.DelayedWorkerStillExecutes`). A step
  starts the executor exactly when the worker stands there under a lease granted before staging
  (`Limits.ExecutorStartsUnderEarlyLeases`).
- `mergeAlternatives` compares lengths. A value dropped in one position hides behind one added
  in another and the merge then matches more than the set (`CollapseExactness.LengthTestCanBeFooled`).
  An accepted merge never widens exactly under `Covered` and never narrows exactly under
  `NegativesShared`, also where several positions match in the same way.
- The emitted conditions leave out operator, case, carrier, selector and transformations, so two
  rule sets with different meanings can be emitted alike (`CollapseMeaning.EmissionDropsTheMatcher`).
  The collapse theorems match every emitted condition as the one it was made from. A receiver can
  do so exactly when the emitted kind and wildcard flag determine the rest
  (`CollapseMeaning.FaithfulReadingExists`), and then all of them hold of what it reads
  (`CollapseMeaning.FaithfulReadingIsInPlace`).
- Shapes are joined by NUL characters and their transformations by `|`. The joined text identifies
  a condition among all others exactly when it contains no NUL and has a single, proper
  transformation name (`RuleCollapse.ShapeStringIdentifies`); `["a|b"]` and `["a", "b"]` are
  confused, and so are no transformations and an empty one. Among conditions with proper names, no
  NUL is enough (`RuleCollapse.ShapeStringIsFaithful`). The rule and binding keys of an application
  unit identify their entries exactly without NUL (`ApplicationUnit.KeyIdentifies`); the assignment
  keys of obligations, joined the same way, hold schema-checked names and never clash
  (`Completeness.DuplicateTestIsRedundant`).
- `canonicalJSONString` departs from RFC 8785 exactly on texts that contain a literal
  backslash followed by u2028 or u2029; it stays injective on those too, but what it writes for
  them is no JSON: a reader takes the text of a value back exactly when no string in it holds such
  a literal (`JsonReader.CanonicalStringReads`, `JsonReader.PrintReads`).
- The bundle validator does not compare the group an artifact names with the group that lists it.
  Whatever groups the artifacts of an accepted bundle name, the two agree exactly when the bundle
  has one group (`CandidateBundle.OneGroupEnsuresAgreement`). Fewer than four artifacts, two or
  more in each group as the schema asks, leave room for one only, and an application unit has two
  artifacts (`CandidateBundle.FewArtifactsShareTheirGroup`, `ApplicationUnit.UnitIsTwoArtifacts`);
  with four, crossed groups are accepted (`CandidateBundle.CrossedGroupsAreAccepted`).
- An accepted application unit may hold two rules on one binding and a binding that nothing uses
  (`ApplicationUnit.BindingsMatchRulesOneToOne`).
- An array index in a JSON Pointer may have blanks, a sign or zeros before it and other text after
  it; section 4 of RFC 6901 admits none of these. The two agree on a token exactly when it consists
  of digits without a leading zero, when no digit follows its blanks and sign, or when a minus
  stands before a number that is not zero (`ArrayIndex.IndexIsStandardExactlyWhenStrict`,
  `JsonPointer.TrailingTextResolves`).

## Model

| member | source | states |
|---|---|---|
| RunStore.LedgerRow.constructor | api/lifecycle_store.go:213-223 | column by column: the row inserted for a new request is queued, unleased, unstaged, and its callback waits exactly when a URL was given |
| RunStore.RunIndex.CreateOrGet | api/lifecycle_store.go:207-238 | the first submission of a request inserts its run; every later one returns that run, says so, and changes nothing |
| RunStore.LedgerRow.LeaseNext | api/lifecycle_store.go:342-378 | granted exactly when due, not canceled unless pending, attempts left unless staged, queued or expired; then these columns are written, and otherwise none |
| RunStore.LedgerRow.Heartbeat | api/lifecycle_store.go:380-392 | the owner of a live lease extends it and learns of a cancel request, anyone else changes nothing |
| RunStore.LedgerRow.StageOutcome | api/lifecycle_store.go:405-422 | bytes are staged only by the owner, only when nothing is staged and no cancel was requested, and only if they are the outcome's canonical encoding |
| RunStore.LedgerRow.CompletePublished | api/lifecycle_store.go:424-451 | an error exactly for a reference of another system or key or bytes that do not seal the outcome; otherwise written by the owner of a live lease: payload, the completion document field by field, outbox event and released lease in one statement |
| RunStore.LedgerRow.Fail | api/lifecycle_store.go:453-466 | failure by the owner; publication_pending is not touched |
| RunStore.LedgerRow.FailOutcome | api/lifecycle_store.go:468-490 | failure with an outcome by the owner unless a cancel was requested; the staged payload is not touched |
| RunStore.LedgerRow.FailExhausted | api/lifecycle_store.go:492-501 | the sweep fails an expired, unstaged, uncanceled run whose attempts are used up |
| RunStore.LedgerRow.RecoverCanceled | api/lifecycle_store.go:503-511 | the sweep cancels an expired run whose cancellation was requested before the cutoff |
| RunStore.LedgerRow.Cancel | api/lifecycle_store.go:513-528 | a queued, not pending run is canceled at once, a live one is flagged, a terminal one stays |
| RunStore.LedgerRow.MarkCanceled | api/lifecycle_store.go:530-542 | the holder cancels a flagged run before the cutoff, whether or not its lease has expired |
| RunStore.LedgerRow.MarkPublicationPending | api/lifecycle_store.go:544-554 | the cutoff: by the owner, once, and not after a cancel request |
| RunStore.LedgerRow.RetryVerification | api/lifecycle_store.go:556-578 | one verification more; the pending run goes back to the queue until the delay has passed while attempts are left, and fails when none is |
| RunStore.LedgerRow.FailPublicationConflict | api/lifecycle_store.go:580-594 | a conflicting readback fails the run and clears publication_pending |
| RunStore.LedgerRow.ClaimNextCallback | api/lifecycle_store.go:656-688 | a due event of a terminal run without a live delivery lease is claimed under a fresh token |
| RunStore.LedgerRow.ResolveCallback | api/lifecycle_store.go:690-724 | a delivering event resolves under its own token to delivered, retry or configuration_failed, and only then |
| Ledger.ValidPayloadIsTheEncoding | api/lifecycle_store.go:596-646 | a payload that passes validation against a sealed outcome is that outcome's own; a payload is represented by the outcome it decodes to, so the comparison of bytes holds by construction |
| ResultSink.MergeNeverOverwrites | api/databricks.go:184-188 | no MERGE of any writer changes what is stored under a result id |
| ResultSink.FirstMergeWins | api/databricks.go:184-188 | after any MERGEs into an empty table a row reads back as identical exactly when it was the first under its result id, as absent exactly when none was, and no result id is stored twice |
| ResultSink.MergeThenReadback | api/databricks.go:118-127 | after a MERGE the readback is identical exactly when no other row was there first, and never absent |
| ResultSink.IdenticalIsStable | api/databricks.go:145-188 | an identical readback stays identical under every later MERGE |
| ResultSink.ResultTable.MergeRow | api/databricks.go:184-188 | inserts the row unless the result id is present |
| ResultSink.ResultTable.VerifyPayload | api/databricks.go:145-174 | the counting readback loop reports the row as published exactly when it is stored alone, as absent exactly when nothing is stored, and a conflict otherwise |
| ResultSink.ResultTable.Publish | api/databricks.go:97-131 | refused without a sink, a reference, its agreement with the sink or valid bytes, and then nothing is written; otherwise one MERGE of the run's row, and the answer is what the readback finds |
| ResultSink.ResultTable.Verify | api/databricks.go:133-143 | refused without a sink, a reference or valid bytes; otherwise the readback, and nothing is written. Whether the reference names the sink is not tested here, as in the source |
| ResultSink.PublicationIsSettled | api/databricks.go:97-131 | a publication whose MERGE ran is reported as published exactly when the run's row is stored alone under its result id, otherwise as a conflict, never as absent |
| Worker.ComputeVerificationDelay | api/worker.go:343-352 | the doubling loop computes the capped exponential delay |
| Progress.DelayIsCappedDoubling | api/worker.go:343-352 | the delay starts at the backoff and doubles with every attempt up to five minutes; a delay that has come so far, also by a longer backoff, stays |
| WorkerRun.RunWorker.ExecuteOne | api/worker.go:84-308 | the straight-line method leaves row, table and outstanding MERGEs exactly as the statement machine does, with the heartbeat goroutine as the two flags it sets; undisturbed, it ends as CallResults.CallEnds says in columns |
| WorkerRun.RunWorker.ReconcilePublication | api/worker.go:310-330 | one readback under a live lease settles a publication: exactly the own row under the result id completes the run, no row or an unreadable table sends it back to the queue or uses up its attempts, and anything else is a conflict |
| WorkerRun.RunWorker.Retry | api/worker.go:332-341 | the bounded retry with the delay of the attempt the lease saw |
| WorkerRun.RunWorker.Turn | api/worker.go:58-82 | one turn of the loop, its three statements at three clock readings: both sweeps, each of which may be lost, then at most one leased run; an error of the lease, before or after it took effect, executes nothing |
| Machine.AdvanceDescends | api/worker.go:84-341 | every statement leads to one nearer the end, so executeOne terminates and repeats none |
| Machine.DriveIsARun | api/worker.go:84-341 | a call of executeOne is an execution of the protocol, so every theorem about executions covers the method |
| CallResults.CallEndsAsStated | api/worker.go:84-308 | the end of every undisturbed call in columns and table rows: canceled, held back, failed with its code, completed, or requeued, by the snapshot, the executor's answer, the sink's answers and what the table holds |
| CallResults.Publishing | api/worker.go:274-304 | after the cutoff one MERGE stores the row unless there is one under the result id; then exactly the own row completes the run, and only a verifier settles what is not known |
| CallResults.Reconciling | api/worker.go:310-330 | the same of one readback: by what the table holds under the result id |
| CallResults.UnansweredEndsTheCall | api/worker.go:84-341 | a statement on the ledger that is not answered is the last of its call, and did nothing when the request was lost |
| Effects.LeaseActs | api/lifecycle_store.go:342-378 | in every state of the invariant a lease is granted exactly to a live run that may go on and whose time has come, and the worker starts from what the row holds |
| Effects.HeartbeatActs | api/lifecycle_store.go:380-392 | a heartbeat on a live lease moves its end to one lease from now and shows a request to cancel |
| Effects.LostLeaseIsNoticed | api/worker.go:113-142 | an answered heartbeat tells the worker exactly when the row is no longer its own; an unanswered one does so only after the length of a lease |
| Effects.ExpiredLeaseWritesNothing | api/lifecycle_store.go:380-594 | under an expired lease no statement or heartbeat changes the row, except the one that confirms a requested cancellation |
| Effects.SweepActs | api/lifecycle_store.go:492-501 | the sweep fails exactly the expired runs without result and request to cancel that may not be leased again |
| Effects.RecoverActs | api/lifecycle_store.go:503-511 | the sweep cancels exactly the expired runs with a request to cancel from before the cutoff |
| Effects.CancelActs | api/lifecycle_store.go:513-528 | a request to cancel ends a queued run unless publication is pending, goes on record for any other live run, and changes nothing else |
| Effects.ClaimActs | api/lifecycle_store.go:656-688 | an event is claimed exactly when its run has ended, it is due, it is not settled and no claim on it is live |
| Effects.OthersAct | api/databricks.go:184-188 | clock, crash, late and foreign MERGE change exactly what they are said to |
| Effects.StepIsRecorded | api/worker.go:84-341 | the history counts Publish calls, executor starts, requeues, bytes handed on and the cutoff where they happen, and nothing else |
| Effects.OthersAreRecorded | api/lifecycle_store.go:342-528 | and leases and early requests to cancel as they are written |
| Effects.ClaimsAreRecorded | api/lifecycle_store.go:656-688 | a claim is counted with its expiry exactly when it is written |
| Effects.ResolutionsAreRecorded | api/lifecycle_store.go:690-724 | and a resolution exactly when it is |
| Preservation.RunKeeps | api/worker.go:84-341 | the joint invariant of row, table and all workers holds in every state of every execution |
| Theorems.CompletedRunIsPublished | api/worker.go:237-298 | a run completed with an authoritative reference has exactly one sink row, with its run id and exactly its bytes, now and ever after |
| Endings.CompletedRunSays | api/lifecycle_store.go:424-451 | the completion document of a completed run has this run's id, result id and terminal state, and the reference and digest of its payload |
| Endings.FailedRunSays | api/worker.go:166-341 | a failed run carries one of six failures, each with the facts that belong to it; a conflict only where the table holds something else under the result id |
| Endings.OtherRunsSayNothing | api/lifecycle_store.go:503-542 | a live run has no terminal state, failure, completion or end, and a canceled one only its end |
| Endings.LiveRunMoves | api/lifecycle_store.go:342-594 | in every reachable state every action leaves a live run live, with its lease kept, extended or new, or requeued for exactly the delay, or ends it now in a way that is on record |
| Theorems.TerminalRunIsFinal | api/lifecycle_store.go:424-594 | after any terminal status nothing but the outbox columns changes; terminal rows are neither pending nor leased |
| Theorems.StagedBytesAreWriteOnce | api/lifecycle_store.go:405-422 | staged bytes never change, and every Publish, Verify and CompletePublished receives those bytes |
| Theorems.PublishedAtMostOnce | api/worker.go:252-298 | Publish is called at most once in the life of a run |
| Theorems.ExecutionsAreBounded | api/worker.go:143-165 | the executor starts at most maxAttempts times, each under another lease, and never under a lease granted after staging |
| Theorems.EarlyCancelWins | api/worker.go:228-272 | a cancel request before the cutoff means no Publish call ever and no completion with an authoritative reference |
| Theorems.CanceledRunIsNeverPublished | api/lifecycle_store.go:503-542 | a canceled run was never published and never will be |
| Theorems.CutoffIsFinal | api/lifecycle_store.go:544-554 | once pending, a run is never canceled and stays pending until it is terminal |
| Theorems.StaleTokenWritesNothing | api/lifecycle_store.go:380-594 | no statement or heartbeat under a token that is not current changes the row |
| Theorems.SupersededWorkerIsFenced | api/lifecycle_store.go:360-366 | a superseded or released token never becomes current again, so its worker's statements and heartbeats change nothing of the row in any later state |
| Theorems.HolderIsUniqueAndInformed | api/worker.go:247-272 | at most one worker holds the current token, and its pending snapshot is the row's flag |
| Theorems.PlainFailureNeverHitsAPendingRun | api/worker.go:166-247 | Fail and FailOutcome, which do not test publication_pending, can take effect only on runs that are not pending |
| Progress.NoRunIsStuck | api/lifecycle_store.go:342-528 | once its times have passed, at most one of lease, canceled sweep and exhausted sweep applies to a live run, and one does unless it was never leased and no attempt is configured |
| Progress.WritesLowerTheRank | api/lifecycle_store.go:342-594 | every lifecycle write except lease extension, outbox columns and re-leasing a staged run lowers the rank |
| Progress.LifeIsBounded | api/lifecycle_store.go:556-578 | the number of such writes and of verification requeues in any execution is bounded by the configuration |
| Outbox.EventWaitsForTheRun | api/lifecycle_store.go:213-221 | with a callback the event waits exactly while the run is live; without one there is never an event |
| Outbox.OneLiveClaim | api/lifecycle_store.go:656-688 | at most one unresolved, unexpired delivery claim exists |
| Outbox.ClaimResolvesOnce | api/lifecycle_store.go:690-724 | a resolved or superseded claim changes nothing in any later state |
| Outbox.ResolvedIsSpent | api/lifecycle_store.go:690-724 | a resolved claim is such a spent one |
| Outbox.SettledForever | api/lifecycle_store.go:690-710 | delivered and configuration_failed are final |
| Outbox.UnsettledIsClaimable | api/lifecycle_store.go:662-676 | a terminal run with a callback is claimable, once its times have passed, exactly when it is not settled |
| Outbox.CallbackDispatcher.Deliver | api/callback.go:142-208 | delivered only by HTTP 202, given up only on configuration faults and statuses that are not retryable, otherwise rescheduled with the larger of both delays; and the outbox columns that follow |
| Limits.RecoveryNeverRepublishes | api/worker.go:252-282 | a run past the cutoff without a row and without a MERGE under way is never published and never completes unless somebody else inserts its row |
| Limits.PublishedExactlyWhenNotStranded | api/worker.go:252-298 | past the cutoff some continuation without another writer of the result id brings the run's row into the table if and only if the run is not stranded |
| Limits.CrashAtTheCutoffStrands | api/worker.go:264-279 | one crash right after the cutoff leads to such a run |
| Limits.PlaceholderRunOutlivesItsCancellation | api/worker.go:224-236 | an execution in which a canceled run completes through the placeholder path |
| EarlyCancel.WithdrawnRunCompletesExactlyWhen | api/worker.go:166-272 | a run canceled before the cutoff can still complete if and only if its staged result is a placeholder and the owner of a live lease recovers it with no flag raised or is about to complete |
| EarlyCancel.PlaceholderCompletes | api/worker.go:224-236 | that owner's last statement completes the run under every configuration, keeps the cancel request and leaves the table alone |
| Limits.DelayedWorkerStillExecutes | api/worker.go:143-165 | an execution from the start in which worker 0 starts the executor after worker 1 has staged, and whatever follows keeps the staged bytes |
| Limits.ExecutorStartsUnderEarlyLeases | api/worker.go:143-165 | in every reachable state a step starts the executor if and only if its worker stands before it under a lease granted while nothing was staged |
| RuleCollapse.ShapeStringIsFaithful | api/janus_payload.go:61-67 | between conditions with proper transformation names, the joined string of one without NUL equals that of the other exactly when the shapes are equal, transformation lists included |
| RuleCollapse.ShapeStringIdentifies | api/janus_payload.go:61-67 | no condition of another shape shares a condition's joined string if and only if that condition contains no NUL and has a single transformation, not empty and without a bar |
| RuleCollapse.MergeAlternatives | api/janus_payload.go:184-245 | the loops compute the collapse: refused, or the position-wise unions with at most one length that differs; only conjunctions are merged, and several of them only under OR |
| CollapseAcceptance.MergedExactlyWhen | api/janus_payload.go:184-239 | merged exactly when every alternative is a conjunction with conditions, and there is one, or the combination is OR and the alternatives line up and vary in at most one position |
| CollapseAcceptance.EmittedPosition | api/janus_payload.go:219-258 | each emitted condition has kind, polarity and wildcard flag of the first alternative and the values of the only alternative as they are, or of all of them, each once, in order of appearance |
| CollapseMeaning.OnlyDisjunctionsAreMerged | api/janus_payload.go:185-202 | what is merged is a disjunction of conjunctions; a set that means anything else is refused |
| RuleCollapse.UnionPositions | api/janus_payload.go:219-243 | the union loop with its seen map and the count of varying positions |
| CollapseMeaning.LengthTestFindsNewValues | api/janus_payload.go:234-236 | with repeat-free base values the length test says exactly whether some alternative adds a value |
| CollapseMeaning.EmissionDropsTheMatcher | api/janus_payload.go:247-258 | two conditions that differ only in what is not emitted are emitted alike, and some request matches one but not the other |
| CollapseMeaning.FaithfulReadingExists | api/janus_payload.go:247-258 | a reading that restores what is not emitted exists if and only if kind and wildcard flag determine it within the alternative |
| CollapseMeaning.FaithfulReadingIsInPlace | api/janus_payload.go:247-258 | under such a reading the emitted rule matches what it matches with every condition read as the one it was made from |
| CollapseMeaning.PlainSetIsCompared | api/janus_payload.go:204-218 | where the first alternative contains no NUL and the transformations have proper names, an accepted set has one shape at every position |
| CollapseMeaning.OneDifferenceIsSound | api/janus_payload.go:175-183 | with one differing position the merge implies the OR, and equals it when that position is positive |
| CollapseMeaning.CollapseNeverWidens | api/janus_payload.go:175-245 | with repeat-free base values contained in every alternative, or a single alternative, an accepted merge matches only what the rule set matches by its own operations |
| CollapseMeaning.CollapseIsExact | api/janus_payload.go:175-245 | and it matches exactly what the rule set matches when the positions that differ are positive |
| CollapseMeaning.PositiveCollapseNeverNarrows | api/janus_payload.go:184-245 | with positive conditions an accepted merge matches everything the rule set matches, without that hypothesis |
| CollapseExactness.WideningIsUncovered | api/janus_payload.go:234-243 | an accepted merge never widens if and only if for every choice of merged values some alternative has a chosen value of the same matcher at each positive position |
| CollapseExactness.NarrowingIsUnshared | api/janus_payload.go:234-243 | it never narrows if and only if every satisfiable alternative itself rules out, under the same matcher, all merged values of the negated positions |
| CollapseExactness.ReceiverFindsTheSetExactlyWhen | api/janus_payload.go:184-258 | a receiver that reads the emitted rule faithfully finds in it exactly the rule set if and only if both conditions hold |
| CollapseExactness.WideningLeavesTheAlternatives | api/janus_payload.go:234-243 | where no two positions match in the same way, the first condition is that every choice lies within one alternative |
| CollapseExactness.NarrowingDropsNegatives | api/janus_payload.go:234-243 | and the second that every alternative without an empty positive position has all merged values of the negated positions |
| CollapseExactness.LengthTestCanBeFooled | api/janus_payload.go:234-236 | an accepted set whose merge matches a request that no alternative matches |
| CollapseExactness.FoolingSetsExist | api/janus_payload.go:234-236 | such sets exist for any distinct kinds and values |
| CollapseExactness.ShapeStringCanConfusePolarity | api/janus_payload.go:61-67 | NUL characters can line up a negated condition with a positive one |
| CanonicalText.Utf16Less | api/executor_locator.go:898-906 | the comparison loop decides the order: at the first code unit in which two strings differ, the smaller one or the end comes first |
| CanonicalText.BeforeByUnits | api/executor_locator.go:898-906 | the recursive order is that one, by indices, as section 3.2.3 of RFC 8785 defines it |
| CanonicalText.UnitsOfCharacter | api/executor_locator.go:899 | a character below 0x10000 is its own unit, any other one a high and a low surrogate that give it back |
| CanonicalText.BeforeIsAStrictTotalOrder | api/executor_locator.go:898-906 | that order is a strict total order on strings |
| CanonicalText.CanonicalStringIsEncoded | api/executor_locator.go:876-884 | what the two replacements make of the encoder's output, character by character |
| CanonicalText.CanonicalStringByParts | api/executor_locator.go:876-884 | read from left to right: a literal backslash-u2028 or -u2029 becomes a backslash and the separator, any other character its RFC 8785 escape |
| CanonicalText.EscapesAreStandard | api/executor_locator.go:876-884 | the escapes one by one: five short ones, lower-case hexadecimal for the other control characters, quote and backslash, and nothing else |
| CanonicalText.CanonicalStringIsRfcUnlessLiteral | api/executor_locator.go:876-884 | the text is the one of section 3.2.2.2 of RFC 8785 exactly when it holds no literal backslash-u2028 or -u2029 |
| CanonicalText.CanonicalStringIsPrefixFree | api/executor_locator.go:876-884 | canonical strings are injective on all strings and end where a longer text says they end |
| JsonReader.CanonicalStringReads | api/executor_locator.go:876-884 | an RFC 8259 reader reads a canonical string back as the text it was made of, or takes it for no string when that holds a literal backslash-u2028 or -u2029 |
| CanonicalJson.EnumerationIsUnique | api/executor_locator.go:853-858 | the sorted key list of a map does not depend on the order in which its keys come |
| CanonicalJson.SortedKeysOf | api/executor_locator.go:853-858 | collecting keys in any order and sorting yields that list |
| CanonicalJson.PrintIsPrefixFree | api/executor_locator.go:824-875 | values that head the same text before a delimiter are equal |
| CanonicalJson.CanonicalTextIdentifies | api/executor_locator.go:817-875 | two printable values have the same canonical text exactly when they are equal |
| CanonicalJson.CanonicalTextIsRfcWhenClean | api/executor_locator.go:824-884 | the whole text is the RFC 8785 text exactly when no string in it holds such a literal |
| JsonReader.PrintReads | api/executor_locator.go:824-875 | the reader takes the whole text back as the value it was made of exactly when no string in it holds such a literal |
| JsonReader.WrittenKeysAscend | api/executor_locator.go:853-870 | an object is written as its members between braces with commas, each key once, in ascending order of code units |
| JsonReader.WrittenItems | api/executor_locator.go:842-852 | an array is written as its items in their order, between brackets with commas |
| JsonReader.WrittenWords | api/executor_locator.go:826-841 | null, true and false are those words, a number its own text |
| CanonicalJson.PrintableExactlyWhen | api/executor_locator.go:824-875 | the writer succeeds exactly when every number within the value is finite and every type in it is one of the switch |
| CanonicalJson.WriteRfc8785 | api/executor_locator.go:824-875 | the recursive writer succeeds exactly on values without a non-finite number or a foreign type, and then appends exactly the text |
| CanonicalJson.MarshalRfc8785 | api/executor_locator.go:817-823 | the whole text or an error, nothing in between |
| StrictJson.ScanOfDocument | api/shared_contract_catalog.go:268-325 | over a document's tokens the recogniser consumes exactly that document, or reports a repeated key when there is one |
| StrictJson.AcceptsExactlyStrictDocuments | api/shared_contract_catalog.go:268-325 | a token stream is accepted exactly when it is one document with no repeated key at any depth and nothing after it |
| StrictJson.ReportedKeyRepeats | api/shared_contract_catalog.go:286-300 | a reported key follows members of the same object one of which has that name |
| StrictJson.Value | api/shared_contract_catalog.go:271-312 | the recursive closure over the decoder's cursor reads exactly one value |
| StrictJson.RejectDuplicateKeys | api/shared_contract_catalog.go:268-325 | no error exactly on strict documents, for every stream; a repeated key whenever the input starts with a document that has one, and only a key that some object does name twice |
| SharedRefs.SameStringSet | api/shared_contract_v2.go:871-886 | the counting loops decide equality as multisets |
| SharedRefs.ListsASet | api/shared_contract_v2.go:871-886 | compared with the keys of a map this means that each key is named once |
| SharedRefs.CheckedRefs | api/shared_contract_v2.go:930-944 | ids are returned exactly for references of one kind and scope, known, none twice |
| SharedRefs.Index | api/shared_contract_v2.go:895-910 | a list is indexed exactly when its names are non-empty and distinct |
| Collections.PartsFillTheWhole | api/shared_contract_v2.go:539-557 | disjoint parts that count as many as the whole make it up |
| Coverage.WalkFindsWhatIsCovered | api/shared_contract_v2.go:763-816 | a successful walk returns exactly the inputs and members of the components on paths below the reference |
| Coverage.WalkSucceedsExactlyWhenSound | api/shared_contract_v2.go:763-816 | the walk succeeds exactly when below the root no path repeats a reference, all are known, in scope and of the right kind, components refer to test inputs and source members of the document, and every group declares what it covers |
| Coverage.ReportedFaultsAreReal | api/shared_contract_v2.go:763-816 | whatever fault is reported is there: a path below the root ends at a reference that is wrong in just this way, or for a cycle where the path has been before |
| Coverage.RequirementsAreTheClosure | api/shared_contract_v2.go:743-818 | the same for sharedCoverageRequirements with its indexes: it fails first on a repeated component, then on a repeated group, then as the walk does |
| Coverage.Walker.Visit | api/shared_contract_v2.go:763-815 | the recursive closure computes the walk and leaves its visiting set as it found it |
| Coverage.Walker.VisitComponent | api/shared_contract_v2.go:769-785 | the two loops over a component's references return its test inputs and source members, or the first reference of another kind or scope |
| Coverage.CoverageRequirements | api/shared_contract_v2.go:743-818 | both lists name each input and member once, and each fault is reported as the code reports it |
| Completeness.ValidateCompleteness | api/shared_contract_v2.go:359-559 | the validator with its counting accepts exactly the complete documents |
| CompletenessLaws.CompleteExactlyWhen | api/shared_contract_v2.go:359-559 | complete, item by item: every member, artifact, test input, obligation and unsupported dimension matches what the check result says of it, and everything is accounted for |
| Completeness.CheckPartition | api/shared_contract_v2.go:539-557 | the disjointness and counting test decides the split |
| Completeness.CheckObligations | api/shared_contract_v2.go:490-515 | obligations are accepted exactly when named apart, required, equal to their coverage closure and without a clash of assignment keys |
| Completeness.RequiredInputsAreTheClosure | api/shared_contract_v2.go:490-515 | an accepted obligation asks for every input its coverage reaches, once, and no other |
| Completeness.EveryMemberIsAccountedForOnce | api/shared_contract_v2.go:539-546 | each source member is tested or declared unsupported, never both |
| Completeness.EveryArtifactIsAccountedForOnce | api/shared_contract_v2.go:547-554 | each source artifact is tested or declared unsupported, never both, and tested exactly when it has a semantics reference |
| Completeness.EveryInputIsAccountedForOnce | api/shared_contract_v2.go:555-557 | each test input of the check result is carried over or declared unsupported, never both |
| Completeness.EveryComponentIsGrounded | api/shared_contract_v2.go:452-475 | each component is named by the semantics reference of some source artifact |
| Completeness.EveryObligationIsGrounded | api/shared_contract_v2.go:452-475 | and so is each obligation |
| Completeness.WorkKeysNeverClash | api/shared_contract_v2.go:502-514 | with obligation names free of NUL the duplicate test refuses nothing that the closure test accepts |
| Completeness.DuplicateTestIsRedundant | api/shared_contract_v2.go:490-515 | with the obligation names that the schema admits, the validator accepts the same documents without its test for a repeated assignment |
| CandidateBundle.ValidateBundle | api/shared_contract_v2.go:626-741 | the validator accepts exactly the bundles that keep every rule |
| BundleLaws.AcceptedExactlyWhen | api/shared_contract_v2.go:626-741 | accepted, item by item: artifacts in order with their contents, unit, groups, dependencies on earlier artifacts, directives, mappings and provenance |
| CandidateBundle.DependenciesAreAcyclic | api/shared_contract_v2.go:685-693 | the list order is topological: no chain of dependencies comes back |
| CandidateBundle.GroupsPartitionTheArtifacts | api/shared_contract_v2.go:666-684 | each artifact is in exactly one atomic group |
| CandidateBundle.MappingsMatchObligations | api/shared_contract_v2.go:702-731 | each obligation has exactly one mapping, whose members are exactly those its coverage reaches, each once |
| CandidateBundle.OneGroupEnsuresAgreement | api/shared_contract_v2.go:666-684 | acceptance ensures that the group every artifact names lists it, whatever groups the artifacts name, if and only if the bundle has one group |
| CandidateBundle.FewArtifactsShareTheirGroup | api/shared_contract_v2.go:666-684 | with fewer than four artifacts and at least two in every group there is one group, and the group each artifact names lists it |
| CandidateBundle.CrossedGroupsAreAccepted | api/shared_contract_v2.go:666-684 | a bundle of four artifacts and the shape the schema asks for, over a complete semantics document, that the validator accepts although the groups are crossed |
| JsonPointer.UnescapeUndoesEscape | api/shared_contract_v2.go:1087 | unescaping undoes escaping for every name |
| JsonPointer.EscapesAreStandard | api/shared_contract_v2.go:834-837 | a tilde is written as ~0 and a slash as ~1, and nothing else is escaped |
| JsonPointer.ParseUndoesPointerTo | api/shared_contract_v2.go:1078-1106 | escape, join, split, unescape recovers every list of names |
| JsonPointer.Resolve | api/shared_contract_v2.go:1078-1106 | the loop follows the names and indices of the pointer; a text is no pointer exactly when it is not empty and does not start with a slash |
| JsonPointer.FollowWalks | api/shared_contract_v2.go:1078-1106 | following a path walks from part to part and finds the last one, or stops at the first name that selects nothing and says whether an object, an array or a scalar lacked it |
| JsonPointer.PointerReachesNestedMember | api/shared_contract_v2.go:1078-1106 | in every document the pointer to a nested member or item finds what was put there |
| JsonPointer.OtherPointersStay | api/shared_contract_v2.go:1078-1106 | and a pointer that leads into another part finds what it found before |
| ArrayIndex.SignedNumbersAreRead | api/shared_contract_v2.go:1095-1100 | a number is read behind blanks and one sign and before any text that does not go on with a digit |
| ArrayIndex.BlanksAre | api/shared_contract_v2.go:1095-1100 | the blanks that may come first, one by one |
| ArrayIndex.IndexIsStandardExactlyWhenStrict | api/shared_contract_v2.go:1095-1100 | a token is read as an index exactly when it is the decimal spelling of one, if and only if it is all digits without a leading zero, has no digit after blanks and sign, or has a minus before a number other than zero |
| JsonPointer.TrailingTextResolves | api/shared_contract_v2.go:1095-1100 | the pointer to an item finds it, with or without further text after the index |
| ContentUri.ContentPointerIsThePointer | api/shared_contract_v2.go:834-837 | the fragment of a content URI is the pointer to the artifact's content |
| ContentUri.ContentUriReads | api/shared_contract_v2.go:834-837 | the content URI written out |
| ContentUri.QueryEscapeIsInjective | api/shared_contract_v2.go:835 | the query-escaped result id determines the result id |
| ContentUri.QueryEscapeReads | api/shared_contract_v2.go:835 | the escaped result id reads back as the result id |
| ContentUri.ShortBytes | api/shared_contract_v2.go:835 | a byte is written as one character exactly when it is a space, a letter, a digit or one of - . _ ~ |
| ContentUri.ContentUrisAreInjective | api/shared_contract_v2.go:834-837 | one URI serves one artifact of one result |
| ApplicationUnit.ReadBack | api/shared_contract_v2.go:1115-1165 | a unit is returned exactly when the artifacts hold one that reads back |
| ApplicationUnit.ReadsExactlyWhen | api/shared_contract_v2.go:1141-1165 | a unit reads back exactly when it blocks, both documents name one rule set, there are as many bindings as rules and some rule, no two bindings share a key, and every rule has the key of a binding |
| ApplicationUnit.UnitIsTwoArtifacts | api/shared_contract_v2.go:1127-1149 | the artifacts hold a unit exactly when they are its match-rule and its configuration-fragment in either order, and nothing else |
| ApplicationUnit.EveryRuleHasOneBinding | api/shared_contract_v2.go:1150-1165 | every rule has one binding with its key and no second one, and a rule without NUL is that binding |
| ApplicationUnit.KeyIdentifies | api/shared_contract_v2.go:1150-1165 | no other entry has an entry's key if and only if that entry contains no NUL |
| ApplicationUnit.BindingsMatchRulesOneToOne | api/shared_contract_v2.go:1145-1165 | every binding is used exactly when the rule keys are distinct, by counting |
| ApplicationUnit.DoubledRuleIsAccepted | api/shared_contract_v2.go:1145-1165 | two rules on one binding beside an unused one are accepted |

## Left out

- HTTP handlers, routing, CORS, the UI, the CLI, deployment and the legacy synchronous path: plumbing.
- PostgreSQL and Databricks drivers: each statement, transaction and MERGE is one atomic step; an error is a lost request or a lost reply.
- Several runs at once: the protocol is modelled for one run and one table; other runs and other writers appear as MERGEs of arbitrary rows.
- The columns progress_phase, progress_message, started_at, updated_at and last_heartbeat, and UpdateProgress, which writes only those: no guard reads them.
- SHA-256: a digest is represented by what it was computed from; a canonical payload is represented by the outcome it decodes to.
- The executor: it returns any outcome that carries the run's own run id and result id, as executeDurableRun does (`api/lifecycle.go:298-320`), an error, or a panic.
- WorkerRun.RunWorker.ExecuteOne: runs without other actors in between, and reads the heartbeat's two flags where the code does, as values the lease brought; interleavings and beats at any time are covered by the machine in Protocol, of which a call is proved to be an execution.
- Ledger.ValidPayloadIsTheEncoding: bytes are the outcome they decode to, so that two encodings of one outcome differ is not modelled here; CanonicalJson.CanonicalTextIdentifies is what justifies it.
- Worker.ComputeVerificationDelay: durations are unbounded integers; a 64-bit duration could overflow here only for a negative backoff.
- The jitter of the callback delay and the parsing of Retry-After: the dispatcher receives both delays as values.
- Migrations, backfill and timestamp parsing.
- Trimming and upper-casing of the operation names in a rule set: the model receives them normalised.
- UTF-8: strings are sequences of Unicode scalar values; a Go string with invalid bytes has no counterpart.
- CanonicalJson.WriteRfc8785: a number is its formatted float64 over the alphabet of such texts, so equal numbers are equal numerals; json.Number parsing and the formatting itself are not modelled.
- Go's json.Decoder: the recogniser reads tokens from a decoder that checks nesting and name positions; commas, colons and lexing are that decoder's own.
- SharedRefs.Keys: lists names in any order, where the source sorts them; no caller depends on the order.
- JSON Schema validation of the shared documents: only what it asks of names (StableId) and of the modelled fields of a bundle (SchemaShaped) appears, as hypotheses.
- Completeness.ValidateCompleteness: whether a source artifact's locator resolves and its digest agrees is one truth value of the artifact.
- CandidateBundle.ValidateBundle: digests, byte lengths, content URIs, the fixed modes of unit and groups and the identity of the bundle are truth values of the bundle.
- JsonPointer.Resolve: the percent-decoding of a locator fragment, which comes before it, and the limit of 64 bits on an index, which no array reaches.
- ApplicationUnit.ReadBack: decoding the two documents, looking their bytes up by artifact id and filling the returned candidate; entries carry the name already in lower case.
- Error texts: the coverage walk keeps the distinct faults, the other validators only accept or refuse.
- XSIAM issues, enforcement posting, rule sinks, locator identity checks and stableStringUnion: field mappings and single loops with easy claims.
