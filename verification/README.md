# Verified models of Cogeto's deletion protocol, queue and memory aggregate

Cogeto promises *provable forgetting*: deleting a source removes everything derived
from it across three stores (database rows, index points, stored objects), a signed
hash-chained receipt says so, and nothing brings it back. This project models the code
behind that promise, and the code it runs on, and proves what it keeps.

Two forms are used, following the program. Protocols in which several transactions,
workers and stores interleave are step machines: a `State`, a `Step` datatype, an
`Enabled` guard (a step whose lock is taken is not enabled), an `Apply` function, and
theorems about every legal run. Code that one process runs step by step is a class or a
method with loops, proved against a specification function; what the program promises is
then proved about that function.

| file | what it models |
|---|---|
| `IngestionRace.dfy`, `IngestionProgress.dfy`, `IngestionExactness.dfy`, `IngestionDeadlock.dfy` | pipeline deliveries, deletions and edits of one source over run lock, row lock and memory locks; that facts do get in, listed and out again; which steps are unsafe; how the two ways of deleting come to wait for each other |
| `LockOrder.dfy`, `MemoryLocks.dfy`, `DeadlockPairs.dfy` | transactions as lists of locks; the lists of deliveries, deletions, resolutions, rejections and edits over many sources, memories and relations; which mixes of them can deadlock |
| `JobQueue.dfy` | idempotent deliveries, dead letters, operator retry |
| `ReceiptChain.dfy` | the hash chain of receipts, both tip queries, chain verification |
| `DeletionExecutor.dfy`, `ExecutorProgress.dfy` | external deletes, confirmation, embed jobs and writers over the three stores; that no failure strands a receipt |
| `MemoryTables.dfy`, `ReconcilePolicy.dfy`, `Reconciliation.dfy`, `ReconciliationOutcomes.dfy` | memory and relation tables, merge and supersession policy, contradiction handling, what each action leaves row by row |
| `DeletionSaga.dfy` | the enumeration transaction and the preview |
| `Keyset.dfy`, `Reindex.dfy`, `IntegritySweep.dfy` | keyset paging, index rebuild, nightly sweep |
| `Approvals.dfy` | the approval machine composed with the queue |
| `Citations.dfy`, `Timeline.dfy`, `RateLimit.dfy`, `Robots.dfy`, `Dreaming.dfy` | citation grammar, snapshot diff, fixed windows, robots.txt, watermark windows |
| `Common.dfy` | options, results, counting facts |

## What the proofs found

- **The attachment leg of a deletion can leak.** It lists an attachment's memories before
  it locks the file row and does not wait for a run in flight. Its probe is safe if and only
  if it finds the run lock free, the key consumed or the file row gone; otherwise that very
  deletion can commit and leave a memory (`AttachmentLegLeaks`). Every stored file can come
  to such a probe from its start (`ProbeIsReachedUnsafe`).
- **An edit can slip under an enumeration.** The enumeration reads a snapshot and then
  waits for row locks; an edit that commits meanwhile adds a successor with the same
  provenance which the snapshot lacks (`EditDuringEnumerationLeaks`). The header of
  `deletion-saga.ts` claims enumeration is complete by construction. An edit's commit is
  safe if and only if no enumeration is waiting, and no other step is ever unsafe: that is
  `CalmIsExact`. Every source with a row can come to such a commit (`EditIsReachedUnsafe`).
- **Source before memories is not enough against deadlock.** The comment at
  `project/src/memory/deletion-saga.ts:293-295` says that a
  deletion and the pipeline can never deadlock. That holds for the deliveries and deletions
  of one source, whatever they reconcile with, lift and cascade (`OneSourceNeverDeadlocks`).
  Across sources, and with resolutions, it does not: deleting two sources can deadlock when
  their memories contradict each other, or when each has a memory replaced by one of the
  other's; so can a deletion and the resolution of a relation that names one of its
  memories, the deletions of an email and of its attachment, and an email's deletion and a
  delivery of its attachment. The last three have their exact conditions in
  `DeadlockPairs.dfy`, and `DeadlockFreeExactly` says which mixes of transactions, in any
  number, are free of deadlock.
- **A confirmed memory can lose its approval** to an older, still open accusation; it keeps
  it if and only if no other open relation recorded an older status for it
  (`ConfirmationSticksExactly`).
- **Review rejection can strand** the partner of a rejected memory as contradicted for
  good, exactly when every relation that could release the partner names the rejected one
  (`RejectionIsSafeExactly`).
- **The preview's object count** agrees with the receipt exactly when no key is listed
  twice; its memory count always does (`PreviewIsHonest`).
- **Dreaming windows can gap** when a run finds no watermark and looks back 24 hours across
  a run still pending, whose row may not even be inserted yet; the condition is exact
  (`GuardIsExact`), a cold start can come to it (`LookbackIsReachedUnsafe`), and scheduled,
  single-flight cycles never do.
- **Fixed windows** let at most 2L - 1 requests through any interval of one window length,
  and that is reached; the customary bound 2L is never met.
- The robots evaluator departs from section 2.2.2 of RFC 9309 exactly when a disallow rule
  precedes an allow rule of the same, longest matching prefix (`TieRuleDiffers`).

## Assumptions

The digest of a receipt is injective, never empty and never the genesis string, which can be
had (`ReceiptChain.DigestsExist`); signatures are an opaque predicate. Row ids and object keys are fresh, as generated. Each call to the
index or the object store is atomic, except that a failed deletion may have removed any
part. The index, the object store, clocks, model verdicts and embeddings are parameters.
Database row order is a parameter wherever a query does not fix it. Statements read
committed data; a transaction's writes become visible at its commit. A transaction waits
only for those that hold a lock, not for others that queue for it.

## Model

| member | source | states |
|---|---|---|
| IngestionRace.NoResurrection | project/src/memory/deletion-saga.ts:292-382 | once a deletion of the source has committed, no memory carries its provenance in any later state of a calm run, whatever deliveries were in flight, fail, are retried or start later; discard-mode sources also keep a consumed key. CalmIsExact says that a step can be left out of the calm ones only where it is unsafe |
| IngestionRace.ReceiptIsComplete | project/src/memory/deletion-saga.ts:554-573 | over calm runs, what a deletion has listed when it is about to commit is exactly the set of memories that carry the provenance |
| IngestionProgress.DeliveryAdmits | project/src/ingestion/pipeline/pipeline.service.ts:104-221 | from the start of every source, stored or discard-mode, a delivery left alone loads it, verifies any facts whatever and comes to have admitted exactly those, with its key consumed |
| IngestionProgress.DeletionListsFacts | project/src/memory/deletion-saga.ts:292-335 | from there a deletion on either leg comes to be about to commit with exactly those facts listed |
| IngestionProgress.DeletionForgets | project/src/memory/deletion-saga.ts:337-382 | and commits: no memory, no row and no lock is left and the key stays consumed |
| IngestionProgress.CancelledRunSkips | project/src/infrastructure/queue.ts:135-149 | a delivery that finds its key consumed, by a run or by a cancellation, commits and adds no memory |
| IngestionProgress.WaitsForLocksOnly | project/src/memory/deletion-saga.ts:292-318 | in every state a transaction can take its next step exactly when what its phase waits for is free: the run lock, the row lock against row and share locks, the memories that others have locked |
| IngestionProgress.StepsCountDown | project/src/ingestion/pipeline/pipeline.service.ts:104-221 | every step brings its transaction nearer to its end and leaves the phase of every other alone |
| IngestionProgress.NotFoundRollsBack | project/src/memory/deletion-saga.ts:554-573 | a deletion of a source that has neither row nor memories is rolled back and changes nothing, and no other one is |
| IngestionExactness.AttachmentLegLeaks | project/src/memory/deletion-saga.ts:514-551 | whenever the attachment leg probes while the run lock is taken, the key unconsumed and the row there, that very deletion can commit and leave a memory, by calm steps and whatever else is going on |
| IngestionExactness.EditDuringEnumerationLeaks | project/src/memory/memory.store.ts:672-716 | whenever an edit commits while any deletion waits for its memory locks, on either leg, that deletion can commit and leave the successors of every memory edited |
| IngestionExactness.CalmIsExact | project/src/memory/deletion-saga.ts:292-318 | in every state the invariants allow, a step is safe for all calm continuations if and only if it is calm: for the attachment probe, run lock free, key consumed or row gone; for an edit's commit, no enumeration waiting; nothing for any other step |
| IngestionExactness.CalmRunsAreExact | project/src/memory/deletion-saga.ts:292-318 | the same equivalence in every state a calm run from the start reaches |
| IngestionExactness.ProbeIsReachedUnsafe | project/src/memory/deletion-saga.ts:514-527 | from the start of any stored file a calm run reaches an attachment probe after which calm steps can leave a deleted source with a memory |
| IngestionExactness.EditIsReachedUnsafe | project/src/memory/memory.store.ts:672-716 | from the start of any source with a row a calm run reaches an edit whose commit can do the same |
| IngestionExactness.RunsKeepDrafts | project/src/memory/memory.store.ts:793-829 | in every run, calm or not, uncommitted rows are fresh: nobody else writes them and no committed or listed set holds them |
| IngestionDeadlock.LegsDeadlock | project/src/memory/deletion-saga.ts:522-543 | from a stored file's very start, deleting the file and deleting the email that carries it can come to wait for each other, and over any run neither moves again until one of them aborts |
| MemoryLocks.DeadlockFreeExactly | project/src/memory/deletion-saga.ts:292-382 | a mix of deliveries, deletions, resolutions, rejections and edits, in any number and over any sources, can never deadlock if and only if no deletion or rejection in it locks relation rows or nulls pointers, nobody locks memories out of id order, every listing is behind a row or run lock, no deletion of a memory that others lock before another lock is mixed with deliveries that reconcile or with edits, and emails with attachments are not deleted beside deliveries that reconcile or deletions of stored files |
| MemoryLocks.LiftsDeadlock | project/src/memory/reconciliation.ts:123-169 | deleting two sources whose memories contradict each other can deadlock: each lift wants the relation row and then the other's memory |
| MemoryLocks.PointsDeadlock | project/src/memory/deletion-saga.ts:370-382 | so can deleting two sources of which each has a memory replaced by one of the other's, on an acyclic pointer table |
| MemoryLocks.CarryMeetsReconcile | project/src/ingestion/pipeline/pipeline.service.ts:175-221 | so can an email's deletion beside a delivery of its attachment that reconciles with one of its memories |
| MemoryLocks.HolderIsDone | project/src/memory/deletion-saga.ts:297-318 | in the harmless mixes, what a deletion waits for past its gate is held by a transaction that asks for no further lock |
| DeadlockPairs.OneSourceNeverDeadlocks | project/src/memory/deletion-saga.ts:293-318 | deliveries and deletions of one source, in any number, never deadlock, whatever the deliveries reconcile with and whatever the deletions lift, cascade and carry |
| DeadlockPairs.DeletionMeetsResolutionExactly | project/src/memory/reconciliation.ts:375-440 | a deletion and the resolution of a relation can deadlock if and only if the relation is open and the deletion either lists one of its memories or locks both, as partners or for their pointers, with the lower id last |
| DeadlockPairs.LegsDeadlockExactly | project/src/memory/deletion-saga.ts:514-551 | deleting a stored file and deleting another source, both tied to no relation, can deadlock if and only if the other carries the file and both list one memory of it |
| DeadlockPairs.DeliveryMeetsCarrierExactly | project/src/ingestion/pipeline/pipeline.service.ts:175-221 | a delivery of an attachment and the deletion of its email can deadlock if and only if the deletion locks a memory the delivery reconciles with before the attachment's row |
| DeadlockPairs.DeletionAsksExactly | project/src/memory/deletion-saga.ts:292-382 | a deletion locks its source row, or the run lock of a file without one, every listed memory, partner and pointing row, the existing rows of its attachments, the relations it lifts or erases, and nothing else |
| DeadlockPairs.DeletionLocksInOrder | project/src/memory/deletion-saga.ts:292-382 | its gate first; no row and no listed memory after a relation, a partner or a pointing row |
| LockOrder.PairExactly | project/src/memory/deletion-saga.ts:293-296 | two transactions that lock one thing after another can come to wait for each other if and only if the first locks they compete for are different ones |
| LockOrder.MayLockExactly | project/src/connectors/notes.source-reader.ts:34-45 | a transaction gets its next lock exactly when nobody else holds it, or all who do share it and it asks to share |
| IngestionRace.StepKeepsInv | project/src/ingestion/pipeline/pipeline.service.ts:175-201 | every calm step keeps what deliveries, deletions and edits rely on: a run past its checkpoint holds an unconsumed key and a share lock or is a discard-mode run, and a deletion past its enumeration lists all memories |
| IngestionRace.StepKeepsLockInv | project/src/connectors/notes.source-reader.ts:34-45 | every step, calm or not, keeps the lock discipline: exactly the transactions whose phase says so hold the run lock and the row lock, and a row lock and an admission checkpoint's share lock never coexist |
| JobQueue.NoJobIsLost | project/src/infrastructure/queue.ts:116-202 | after any run each enqueued key is consumed, still held by the queue (running or permanently failed), or a dead letter |
| JobQueue.EffectsAtMostOnce | project/src/infrastructure/queue.ts:102-151 | over all deliveries, crashes, cancellations and retries no key's handler effect commits twice |
| JobQueue.ConsumedKeysStayQuiet | project/src/infrastructure/queue.ts:69-82 | once a key is consumed, by a run or by a cancellation, no later delivery commits its effect |
| JobQueue.RetryKeepsInv | project/src/entrypoints/jobs.controller.ts:148-176 | the operator's retry hands a dead letter's key over to a new job with nothing lost in between |
| JobQueue.RetriedJobRuns | project/src/entrypoints/jobs.controller.ts:148-176 | a retry removes the dead letter's row and enqueues its key with ten untried attempts; the job can be picked up at once and, unless the key is consumed or running, run to commit the effect |
| JobQueue.EnqueuedJobRuns | project/src/infrastructure/queue.ts:116-151 | an enqueued job is untried and, unless its key is consumed or running, can run to commit its effect |
| JobQueue.FailingJobIsParked | project/src/infrastructure/queue.ts:152-202 | a job whose handler keeps throwing stays queued for every attempt but the last, which makes its key a dead letter and ends the job |
| JobQueue.NextSteps | project/src/infrastructure/queue.ts:116-202 | which step a delivery may take next, for each of its phases |
| JobQueue.ParkKeepsInv | project/src/infrastructure/queue.ts:165-185 | parking hands a key from its job to a dead-letter row before the job is completed |
| JobQueue.Worker.Deliver | project/src/infrastructure/queue.ts:116-202 | one undisturbed delivery consumes and applies, skips, parks after a final failure if one of three writes succeeds, or leaves the job to be retried |
| JobQueue.Worker.GiveUp | project/src/infrastructure/queue.ts:165-199 | the dead-letter write is tried three times and a total failure leaves the job with the queue |
| ReceiptChain.HashesDiffer | project/src/memory/domain/receipt-chain.ts:54-61 | in a chain no hash and no previous hash occurs twice |
| ReceiptChain.TipIsLast | project/src/memory/deletion-saga.ts:659-681 | a receipt is a tip, linked to by none, exactly when it ends the chain |
| ReceiptChain.ExecutorTip | project/src/memory/deletion-saga.ts:664-681 | the executor's query answers genesis only without tips, a tip's hash otherwise, and refuses only when two rows qualify |
| ReceiptChain.ControllerTip | project/src/memory/receipts.controller.ts:121-129 | the exported anchor is a tip's hash whenever there is one, with the count of confirmed receipts |
| ReceiptChain.BothTips | project/src/memory/receipts.controller.ts:117-129 | on a linear ledger the executor's tip and the exported anchor are the same hash and the error is unreachable |
| ReceiptChain.VerifyChain | project/src/memory/domain/receipt-chain.ts:75-118 | the walk accepts exactly the tables whose rows can be ordered into one signed line from genesis |
| DeletionExecutor.ConfirmedMeansGone | project/src/memory/deletion-saga.ts:594-657 | in every reachable state each point, row and object that a confirmed receipt lists is absent, for every placement of failures, half-done calls, retries and concurrent embed jobs |
| DeletionExecutor.LedgerIsOneLine | project/src/memory/deletion-saga.ts:617-681 | the confirmed receipts and nothing else form one line from genesis, each once; every entry bears the type, id and counts of its own row and is signed at its confirmation; the several-tips error is never reached |
| DeletionExecutor.LedgerVerifies | project/src/memory/receipts.controller.ts:47-72 | whatever order the table returns, the confirmed receipts of any run are accepted by chain verification |
| DeletionExecutor.LedgerTips | project/src/memory/receipts.controller.ts:117-129 | whatever order the table of confirmed receipts comes in, after any run the executor's tip query and the exported anchor name the same receipt, the last one confirmed |
| DeletionExecutor.AnchorsStay | project/src/memory/receipts.controller.ts:106-114 | a tip exported earlier stays in every later ledger, whose count never decreases |
| DeletionExecutor.WriterStepKeepsListed | project/src/memory/embed-job.ts:15-33 | after any step of a pipeline write or embed job no listed memory has a row, a draft or an embed lock that could bring its point back |
| DeletionExecutor.ExecStepKeepsOwn | project/src/memory/deletion-saga.ts:608-621 | an executor holds the chain lock only with all its external removals behind it, and its tip is the ledger's end |
| DeletionExecutor.Executor.Execute | project/src/memory/deletion-saga.ts:594-657 | one attempt removes every listed point and object, confirms the receipt at the present time and appends one entry that bears its row's type, id and counts, linked to the old tip, or fails with the database unchanged; missing and already confirmed receipts change nothing |
| ExecutorProgress.EveryReceiptCanBeConfirmed | project/src/memory/deletion-saga.ts:594-657 | from every reachable state every unconfirmed receipt can still be confirmed: whoever works on it or holds the chain lock gives up, one attempt removes what it lists and appends its entry, and no other receipt is touched |
| ExecutorProgress.OnlyListedIsLost | project/src/memory/deletion-saga.ts:594-657 | over every run, from every state, a row, point or object that disappears is on some receipt, failed calls and retries included |
| ExecutorProgress.ExecutorWaitsForChainOnly | project/src/memory/deletion-saga.ts:608-621 | in every reachable state an executor's next call can succeed, unless it wants the chain lock and another executor is past it |
| ExecutorProgress.FailedCallRemovesAnyPart | project/src/memory/deletion-saga.ts:594-607 | a call that fails may have removed any part of the points, or the object, or nothing |
| ExecutorProgress.PointIsRefreshed | project/src/memory/embed-job.ts:15-33 | an embed job can bring back the point of any committed row that no other job holds |
| ExecutorProgress.OneWriterPerRow | project/src/memory/embed-job.ts:15-33 | whoever may write the point of a row is alone with that row |
| MemoryTables.LiftSpec | project/src/memory/reconciliation.ts:123-169 | lifting changes nothing but the status of contradicted survivors, each to the first prior status on record |
| MemoryTables.FirstPriorSpec | project/src/memory/reconciliation.ts:90-114 | a survivor gets a recorded status other than contradicted whenever some listed relation recorded one |
| MemoryTables.ForgetSpec | project/src/memory/deletion-saga.ts:337-382 | erasing removes exactly the listed memories and the relations that name them, and survivors keep all but a nulled pointer and a lifted status |
| MemoryTables.LiftContradictions | project/src/memory/reconciliation.ts:123-169 | the loop realises the lift and counts the relations that had a survivor |
| ReconcilePolicy.SurvivorOutranks | project/src/memory/domain/reconcile-policy.ts:41-53 | a merge survivor never ranks below the loser, an approved memory never loses, equals go to the later one, and argument order matters only for full ties, which go to the second one |
| ReconcilePolicy.WhoMaySetWhat | project/src/memory/domain/transition.ts:31-68 | the transition table, by actor: a user activates, outdates, and approves what is uncertain or contradicted, the others set one status each, a replaced memory stays replaced and nobody replaces one this way |
| Reconciliation.StatusComesBack | project/src/memory/reconciliation.ts:90-169 | a memory with no open relation left has the status from before its first detection, over all overlapping relations and orders of dismissal and lift, while others may be merged, confirmed or corrected |
| Reconciliation.ConfirmationSticksExactly | project/src/memory/reconciliation.ts:451-492 | a confirmed memory stays approved, over all later actions on others, if and only if no other open relation recorded for it a status other than approved or contradicted |
| Reconciliation.ConfirmationIsForgotten | project/src/memory/reconciliation.ts:451-492 | a run from empty tables reaches a confirmation that does not stick: a memory accused twice and confirmed in the second relation |
| Reconciliation.ContradictedCanBeReleased | project/src/memory/reconciliation.ts:512-539 | in every reachable state each contradicted memory has an open relation whose dismissal gives it another status |
| Reconciliation.ActionStrandsNobody | project/src/memory/reconciliation.ts:196-340 | detection, merge, supersession, confirm, correct, dismiss and deletion each strand nobody |
| Reconciliation.DeleteStrandsNobody | project/src/memory/deletion-saga.ts:332-341 | a deletion's lift releases every partner that would lose its last way back |
| Reconciliation.RejectionIsSafeExactly | project/src/memory/memory.store.ts:726-754 | rejecting a memory strands nobody if and only if every other contradicted memory has an open relation to release it that does not name the rejected one; this is the absence of stranded memories in the table without it, read off the table before |
| Reconciliation.RejectionCanStrand | project/src/memory/memory.store.ts:726-754 | a run from empty tables reaches an uncertain memory whose rejection strands its partner |
| Reconciliation.PointersEnd | project/src/memory/reconciliation.ts:546-573 | following replaced-by pointers revisits no memory and ends, from every row of every reachable state, and only replaced rows carry a pointer, to a row that exists |
| Reconciliation.ActionKeepsForest | project/src/memory/reconciliation.ts:196-257 | no merge, enrichment, supersession, confirm, correct, dismissal or deletion makes a cycle of pointers or points at a missing row |
| Reconciliation.SupersedeKeepsForest | project/src/memory/memory.store.ts:793-829 | supersession by a new row keeps the pointers a forest |
| Reconciliation.MemoryReconciliation.MergeSameFact | project/src/memory/reconciliation.ts:196-257 | a merge errs, skips or takes effect exactly as the policy decides; enrichment, only for changed content of an active or uncertain survivor, writes a row with the normalised text |
| Reconciliation.MemoryReconciliation.CreateContradiction | project/src/memory/reconciliation.ts:265-311 | two existing, unreplaced memories are related exactly when no relation joins them in either order; both prior statuses are recorded and both become contradicted |
| Reconciliation.MemoryReconciliation.ApplySupersession | project/src/memory/reconciliation.ts:319-340 | nothing is superseded unless the direction is unambiguous and neither party is replaced |
| Reconciliation.MemoryReconciliation.ResolveContradiction | project/src/memory/reconciliation.ts:375-428 | owner-only; an error or a resolved relation changes nothing, anything else is exactly the chosen outcome |
| ReconciliationOutcomes.CorrectionOutcome | project/src/memory/reconciliation.ts:499-509 | a correction writes one approved successor per party, with that party's new text, owner and provenance, starting now; each party is replaced by its own successor at that instant, and no other row changes |
| ReconciliationOutcomes.EnrichingMergeOutcome | project/src/memory/reconciliation.ts:215-257 | an enriching merge writes the composed text under the survivor's owner, provenance, status and start; both parties are replaced by that row when the fact began |
| ReconciliationOutcomes.PlainMergeOutcome | project/src/memory/reconciliation.ts:546-573 | a plain merge and a supersession change only the loser: replaced by the survivor when the survivor began |
| ReconciliationOutcomes.ConfirmationOutcome | project/src/memory/reconciliation.ts:451-492 | a confirmation approves the winner; the loser becomes outdated if its interval ended before the winner began, otherwise replaced by it then |
| ReconciliationOutcomes.DismissalOutcome | project/src/memory/reconciliation.ts:512-539 | a dismissal gives each contradicted party its recorded status back and touches nobody else |
| ReconciliationOutcomes.DeletionOutcome | project/src/memory/deletion-saga.ts:337-382 | a deletion takes the doomed memories and their relations; a survivor loses a pointer to one of them and, if contradicted, gets back a status that an open relation to a doomed memory recorded, and nothing else |
| ReconciliationOutcomes.PairIsRelatedOnce | project/src/memory/reconciliation.ts:265-311 | over every run two memories are related at most once, whichever way round and whatever became of the relation |
| DeletionSaga.DeletionIsExact | project/src/memory/deletion-saga.ts:315-382 | exactly the memories of the source and its attachments go; survivors change only by nulled pointers and lifted statuses; relations go exactly with their parties |
| DeletionSaga.ReceiptIsExact | project/src/memory/deletion-saga.ts:384-411 | the receipt lists exactly the removed ids, every object once, and exactly the survivors whose pointer was nulled |
| DeletionSaga.DeletedFromRows | project/src/connectors/email.source-deletion.ts:41-68 | read off the rows: a memory goes exactly if it carries the provenance of the source or of a file the email row names; that file goes too, and the source row |
| DeletionSaga.ReceiptFromRows | project/src/connectors/email.source-deletion.ts:41-68 | read off the rows: the receipt's keys are the file itself, an email's raw and HTML keys or a page's raw key when not empty, the existing files the email names, and no others |
| DeletionSaga.MemoryCountIsExact | project/src/memory/deletion-saga.ts:241-277 | as many ids are listed as memories go, unless an email names a file twice |
| DeletionSaga.PreviewIsHonest | project/src/memory/deletion-saga.ts:241-277 | the preview's memory count is the receipt's; its object count is if and only if no key is listed twice |
| DeletionSaga.EnumeratesDoomed | project/src/connectors/email.source-deletion.ts:41-68 | source query and attachment cascade together list exactly the memories derived from the source and its attachments |
| DeletionSaga.AuthorizedInParts | project/src/memory/deletion-saga.ts:554-573 | the checks spread over source row, memories and attachments amount to one ownership condition |
| DeletionSaga.AuthorizedFromRows | project/src/memory/deletion-saga.ts:554-573 | read off the rows: only the owner of the source, of everything derived from it and of every existing file it carries may delete it |
| DeletionSaga.Saga.RequestSourceDeletion | project/src/memory/deletion-saga.ts:284-446 | succeeds exactly for known types, non-blank ids and full ownership, then commits the whole deletion; every error leaves everything unchanged |
| DeletionSaga.Saga.CascadeFileSubSources | project/src/memory/deletion-saga.ts:514-551 | the attachment loop collects the attachments' memories and existing keys and refuses anything foreign |
| DeletionSaga.Saga.PreviewSourceDeletion | project/src/memory/deletion-saga.ts:241-277 | answers for exactly the known types whose source row the caller owns, and the loop computes the announced counts |
| Keyset.NextPage | project/src/memory/reindex.ts:88-98 | a page holds the first ids above the cursor, in order, and is short only at the end |
| Keyset.PageAdvances | project/src/memory/integrity-sweep.ts:400-422 | pages are disjoint, and each strictly shrinks what is left |
| Reindex.Reindexer.Run | project/src/memory/reindex.ts:49-147 | from any index the result is one point per row with non-blank content, each with the active model's vector of its own text and the row's own owner, scope, status, sensitivity and provenance; the counters add up and `ok` is true |
| Reindex.PageIsDone | project/src/memory/reindex.ts:107-131 | upserting the reused and the fresh list together gives every row the vector of its own text and touches no other point |
| Reindex.UpsertedSpec | project/src/memory/memory.store.ts:1132-1152 | each listed row gets the vector at its own position |
| IntegritySweep.Sweep.Run | project/src/memory/integrity-sweep.ts:128-246 | the alerts on record grow by exactly the violations present, every embedded row is compared once, and the index is healed with nothing else changed |
| IntegritySweep.SweepTwice | project/src/memory/integrity-sweep.ts:192-200 | an immediate second sweep adds no alert and changes no point |
| IntegritySweep.HealedAgrees | project/src/memory/integrity-sweep.ts:430-461 | after a sweep each point of an embedded row agrees with it on owner, scope, status and sensitivity |
| IntegritySweep.HealingAddsNothing | project/src/memory/integrity-sweep.ts:391-464 | healing raises no violation that was not there before |
| IntegritySweep.Sweep.CheckReceipts | project/src/memory/integrity-sweep.ts:137-183 | the receipt arm finds exactly the listed identifiers still present and the memories resurrected under a receipted source |
| IntegritySweep.Sweep.FindOrphanedMemories | project/src/memory/integrity-sweep.ts:287-314 | exactly the memories of adapter-backed types whose source row is gone |
| IntegritySweep.Sweep.FindOrphanedObjects | project/src/memory/integrity-sweep.ts:326-376 | exactly the aged objects that are overdue staging bytes or that nothing owns, exports aside |
| IntegritySweep.ReceiptAlertsFromRows | project/src/memory/integrity-sweep.ts:137-182 | read off the records: a listed memory, point or object is reported when it is in its own store, and a memory when its type and id are the receipt's and it is not listed |
| IntegritySweep.OrphansFromRows | project/src/memory/integrity-sweep.ts:287-314 | read off the row: a memory is orphaned when its type has an adapter and no source of that type and id is there |
| IntegritySweep.AreaIsThirdSegment | project/src/memory/integrity-sweep.ts:326-376 | an object's area is the third segment of its key |
| IntegritySweep.OldObjectsAreReported | project/src/memory/integrity-sweep.ts:326-376 | an alert about an object speaks of one older than the cutoff and outside exports: staging bytes, or what no row owns |
| IntegritySweep.HealedPoint | project/src/memory/integrity-sweep.ts:430-461 | a point that differs from its embedded row in a gate field takes the row's gate fields and validity and keeps its provenance; every other point stays |
| Approvals.EffectsAreApprovedAndUnique | project/src/agents/approval.executor.ts:21-58 | on a queue shared with jobs of any other type, an action's effect commits at most once, only after a confirm approved its row, and exactly for the executed rows |
| Approvals.ApprovedRowsAreExecutedOrPending | project/src/agents/approval.service.ts:119-133 | an approved row not yet executed has its job queued, failed or parked |
| Approvals.ConfirmedActionRuns | project/src/agents/approval.executor.ts:21-58 | after a confirm a delivery of the job it enqueued can commit the effect and mark the row executed, unless that key is running |
| Approvals.TerminalRowsStay | project/src/agents/domain/approval-machine.ts:17-40 | rejected, expired and executed rows never change again |
| Approvals.StepsFollowEdges | project/src/agents/approval.service.ts:85-172 | every step changes a row by one edge or not at all and in nothing but its status; only a confirm approves or rejects, only time expires, only a delivery of its own job executes |
| Approvals.Edges | project/src/agents/domain/approval-machine.ts:17-24 | the five edges, and no others |
| Approvals.ApprovalService.ConfirmApproval | project/src/agents/approval.service.ts:85-137 | the row and its job move in one transaction, for visible rows and legal edges only; errors change nothing |
| Approvals.ApprovalService.ExpireStale | project/src/agents/approval.service.ts:144-172 | exactly the pending rows past their time expire, and the pass returns their number |
| Approvals.ApprovalService.ExecuteApproval | project/src/agents/approval.executor.ts:21-58 | an approved row runs with its claim, an executed one is skipped, everything else rolls back |
| Citations.SanitizeAnswer | project/shared/src/citations.ts:84-95 | violations are the refused tokens and the stretches of text that lose a character, zero exactly when the output equals the input; the output renders canonical segments only |
| Citations.SanitizeTwice | project/shared/src/citations.ts:84-95 | a second pass returns the same text with zero violations |
| Citations.ScanRenders | project/shared/src/citations.ts:60-82 | the segment list renders to the input with every junk token, unsupplied cite and orphan brace removed |
| Citations.ScanCounts | project/shared/src/citations.ts:46-82 | the scan counts each refused token once and, once each, the stretches of text between tokens that lose a character |
| Citations.CleanMeansUnchanged | project/shared/src/citations.ts:4-15 | text is left unchanged exactly when it is plain characters and accepted tokens |
| Citations.SanitizedIsClean | project/shared/src/citations.ts:4-15 | what sanitising leaves has nothing more to strip |
| Citations.SegmentsAreCanonical | project/shared/src/citations.ts:60-82 | every segment is text without braces and brackets, a cite to a supplied id, or the unsourced marker |
| Citations.ScanAnswer | project/shared/src/citations.ts:60-82 | the matching loop computes the segments and violations of the whole text |
| Citations.MatchRecognizes | project/shared/src/citations.ts:17-36 | a canonical token is found wherever it stands at the front, and plain characters start no token |
| Citations.EnclosedFindsBody | project/shared/src/citations.ts:29-36 | a junk alternative matches whenever some body without its delimiters is enclosed, and takes all of it |
| Citations.DoubleBraces | project/shared/src/citations.ts:17-36 | double braces stay around an accepted body and go with any other |
| Citations.BracketsGo | project/shared/src/citations.ts:29-36 | brackets go with whatever they enclose |
| Citations.BracesGo | project/shared/src/citations.ts:29-36 | so do single braces |
| Citations.PlainPasses | project/shared/src/citations.ts:60-82 | plain characters pass unchanged |
| Timeline.ComputeTimelineDiff | project/shared/src/timeline.ts:126-166 | the earlier snapshot splits into kept, changed and removed, each fact once and never in two of them, with one outcome each; every later fact is kept, added or a change's outcome, and added is neither of the others |
| Timeline.SuccessorAtTo | project/shared/src/timeline.ts:139-148 | the walk ends on cyclic pointers and returns the first later fact reachable through visible facts, or none exactly when no number of hops reaches one |
| Timeline.OutcomeIsAChain | project/shared/src/timeline.ts:119-148 | what a change and a removal claim, on the facts alone: a fact changed into the later one that a chain of successors through facts that no longer hold leads to, and was removed exactly when no chain leads to a later one |
| RateLimit.FirstOnesPass | project/src/infrastructure/rate-limit.ts:62-83 | of the requests within one window length of the one that opens it exactly the first `limit` pass |
| RateLimit.IntervalBound | project/src/infrastructure/rate-limit.ts:62-83 | no half-open interval of one window length sees more than 2L - 1 admitted requests, over runs of any length |
| RateLimit.IntervalBoundIsReached | project/src/infrastructure/rate-limit.ts:62-83 | that bound is attained for every limit and every window longer than one tick |
| RateLimit.KeysAreIndependent | project/src/infrastructure/rate-limit.ts:59-83 | each key is decided as if it were alone |
| RateLimit.EvictionIsInvisible | project/src/connectors/email-intake.service.ts:84-105 | evicting expired windows changes no verdict for a clock that does not run backwards |
| RateLimit.EveryKeyIsBounded | project/src/connectors/email-intake.service.ts:84-105 | both limiters keep the interval bound for every key |
| RateLimit.RateLimitGuard.CanActivate | project/src/infrastructure/rate-limit.ts:47-84 | uncapped routes pass uncounted, all others follow the window rule |
| RateLimit.IntakeRate.WithinIntakeRate | project/src/connectors/email-intake.service.ts:87-105 | the intake cap follows the same rule and evicts only when opening a window in a map of more than 10,000 |
| Robots.WinnerIsEarliestLongest | project/src/connectors/web-fetch.ts:147-158 | the verdict is that of the earliest rule among the longest non-empty matching prefixes; without a match, allow |
| Robots.OrderMattersWithinPrefixOnly | project/src/connectors/web-fetch.ts:150-157 | rule lists that agree prefix by prefix give every path one verdict |
| Robots.TieRuleDiffers | project/src/connectors/web-fetch.ts:117-158 | the exact cases in which section 2.2.2 of RFC 9309 decides otherwise |
| Robots.SplitKeepsVerdict | project/src/connectors/web-fetch.ts:147-158 | splitting a group or merging adjacent groups of the same agents changes no verdict |
| Robots.RepeatedAgentLinesAreHarmless | project/src/connectors/web-fetch.ts:126-146 | repeating all the agent lines of a group between its rules changes no verdict, unless another agent line follows |
| Robots.RobotsAllows | project/src/connectors/web-fetch.ts:118-159 | the parser and evaluator loops compute the verdict of the parsed groups |
| Robots.LineIsRead | project/src/connectors/web-fetch.ts:126-146 | a line `field: value`, white space and case aside, is an agent, an allow rule or a disallow rule of that value as its field says; any other field only ends a run of agent lines |
| Robots.LinesSplit | project/src/connectors/web-fetch.ts:126 | a text splits at line feeds, with or without a carriage return before them |
| Robots.CommentsAreOpenEnded | project/src/connectors/web-fetch.ts:127 | a hash sign starts a comment exactly when none of the four line terminators comes after it |
| Robots.GroupsThatCount | project/src/connectors/web-fetch.ts:147-149 | the groups with an agent that has our token in it decide alone if there are any, and only otherwise the groups with an agent `*` |
| Dreaming.WindowsLeaveNoGap | project/src/ingestion/dreaming.service.ts:66-73 | over any guarded sequence of finished, overlapping and crashed runs, with clock, watermark, insert and finish as separate steps and finish stamps that commit in any order, the finished windows cover everything from the first finished run's start to the latest window end |
| Dreaming.GuardIsExact | project/src/ingestion/dreaming.service.ts:175-185 | reading the watermark is safe for every continuation if and only if the run does not look back across a pending run, inserted or not |
| Dreaming.GuardedRunsAreExact | project/src/ingestion/dreaming.service.ts:66-73 | the same equivalence in every state a guarded run from a cold start reaches |
| Dreaming.SingleFlightLeavesNoGap | project/src/infrastructure/queue.ts:43-66 | scheduled cycles, one at a time, leave no gap without any condition |
| Dreaming.UnguardedLookbackGaps | project/src/ingestion/dreaming.service.ts:175-185 | the continuation in which an unguarded look back leaves a gap |
| Dreaming.LookbackIsReachedUnsafe | project/src/ingestion/dreaming.service.ts:66-73 | from a cold start a guarded run comes to a second look back more than the lookback after the first, and a gap follows |
| Dreaming.RunFinishes | project/src/ingestion/dreaming.service.ts:66-73 | a run is never kept from finishing, and its window then goes from the window end it took up, or from 24 hours back, to its own clock |
| Dreaming.CrashEndsRun | project/src/ingestion/dreaming.service.ts:66-73 | a run may crash wherever it stands, takes no further step, and touches no other |
| Dreaming.DreamingService.DefaultScopeFrom | project/src/ingestion/dreaming.service.ts:175-185 | the watermark is the window end of a run with the latest finish, or the lookback when none has finished |

## Left out

- HTTP wiring, guards, DTOs, configuration, health probes, audit text: no hard property.
- Model calls, prompts, embeddings' values: verdicts are arbitrary inputs, `embed` is a function parameter.
- Cryptography and canonical JSON: an injective digest and an opaque signature predicate.
- Concurrent reindex beside a deletion, and the daily note cap under concurrency.
- Derived cascades (tasks, chat redaction, reply drafts): they only add counts to the receipt.
- Ingestion cancellation inside `DeletionSaga`: the keys and the races are the subject of `IngestionRace` and `JobQueue`.
- `mapMarkersToCitations` and `mapUnsourcedMarkers`: they rewrite text before the sanitiser, whose guarantees hold for any text.
- After-commit continuations and payloads that do not parse: they neither claim nor commit.
- Unicode lower-casing in robots.txt: only A to Z are folded, which decides every comparison the evaluator makes.
- The 2000-row limit of the dreaming scan: coverage is about windows, not about rows inside one.
- Interval closing and status in `laterFateOf`, listing queries, attention feed: presentational.
- Reindex.Reindexer.Run: takes a batch size of at least one, because with zero the source's loop stops at once and would drop every point.
- IngestionRace.NoResurrection: speaks of calm runs, because the steps they leave out are unsafe, each and every one (`IngestionExactness.CalmIsExact`).
- IngestionDeadlock.LegsDeadlock: the run lock, row lock and memory locks of one source only; every other lock is in `MemoryLocks`.
- MemoryLocks.DeadlockFreeExactly: leaves out probing the run lock without waiting, because the run lock is the first lock of whoever waits for it and nobody waits for a transaction that holds nothing; also rows of other modules' tables and the receipt chain lock. A transaction's list is what its queries turn out to return, at whatever moment they run; the source rows, relations and pointers it can meet are taken as unchanging while it is in flight.
- A dreaming run with an explicit window start: only tests pass one.
- Timeline.ComputeTimelineDiff: takes snapshots with distinct ids, which the primary key gives.
- IntegritySweep.Sweep.Run: takes the chain's verdict as an input; `ReceiptChain.VerifyChain` is that verdict.
- DeletionExecutor.Executor.Execute: one attempt that waits for nobody; waiting and interleaving are in the step machine of the same file.
