# Verified model of the asynchronous-correctness substrate

This project models the parts of jlmirror that decide whether an effect may happen, happen again, or be seen
twice, and proves what every run of them keeps. It is written for Dafny 4.11; `dafny verify dfyconfig.toml` checks
all of it.

## What is modelled

**The three ledgers of `src/jlmirror_async`.** Each ledger appears twice. A specification module (`OperationSpec`,
`InboxSpec`, `OutboxSpec`) gives every public call as a function from a ledger to the ledger it leaves and its
answer, so that a call that raises still has a state it leaves behind. A class module (`OperationLedger`,
`InboxLedger`, `OutboxLedger`) keeps the ledger as the program does, with mutable records reached through
dictionaries, and each method is proved to do what the function of the same name says. A proof module
(`OperationProofs`, `InboxProofs`, `OutboxProofs`) states what all runs keep, and an outcome module
(`OperationOutcomes`, `InboxOutcomes`, `OutboxOutcomes`) states field by field, without naming the functions of the
specification, what every call answers and leaves behind, and what follows from that for later calls. `Leases`
holds the one law about issued claims that the three share. `JointRuns` runs inbox and operation ledger together,
the second being the first one's operation authority, with calls interleaved in any order; `JointEffects` adds effects in the outside
world, and `AbsenceRecords` asks how often one proof of absence can be used.

* Clock values are arguments of the calls. They are arbitrary integers, in no order, so every theorem
  holds for clocks that jump or run backwards.
* The execution authority is an arbitrary answer to each request. In `InboxProofs` the operation authority is an
  arbitrary function too, and may differ from call to call.
* The central results are these. An operation's earlier generations all have exactly one record that proves
  their absence, so with a truthful reconciler at most one generation ever takes effect. A receipt with
  a result is never executed again. A receipt that executed twice is bound to an operation with a stored proof
  of absence, and has at most one effect through it. Redeliveries are invisible. Calls that raise leave nothing
  but lapsed leases. An issued claim that was refused stays refused.

**Fences, sessions, problem pages, workload identities, alerts and metric windows**, each with its hardest law:

* `Fences` and `Sessions` split every acquisition, rotation and retirement into a read and a later
  compare-and-swap, and prove safety over all interleavings.
* `ProblemOrder` and `ProblemPages` prove that following cursors through `list_problem_page`, over the keyset
  query, is cutting the sorted and filtered list into slices.
* `Spiffe` prints and parses workload identities (SPIFFE-ID standard, sections 2.1 and 2.2) through a model of
  URL splitting, with the three grammars written out.
* `SessionWindows` states when sessions resolve and how long they live, `AlertDecisions` at exactly which evaluation
  an alert is created or resolved, and `MetricFailures` every way in which a read fails.
* `Alerts` proves convergence of evaluation and what decision ids, decision hashes and alert ids identify;
  `AlertIdentity` proves exactly which evaluations share a decision id.
* `MetricHistory` proves that batching by value type loses and invents no row, and `MetricAttribution` when rows are
  reported for targets of their own type.

## Where the code does less than one would expect

The model follows the code. Some expectations hold only under a condition, which is proved to be the exact one, and
each comes with an input on which it fails:

* The runtime profile of a workload identity has no length bound, but a path segment has. An identity whose
  profile is longer than 128 characters prints to a text that its own parser denies (`Spiffe.PrintThenParse`,
  `Spiffe.LongProfileDenied`). Printing is nevertheless injective on all valid identities.
* An absence record is not consumed by the inbox. It can re-admit a receipt again exactly as long as the operation
  has begun no later attempt (`AbsenceRecords.ReadmitsAgainIffNoLaterAttempt`), and there are runs with any number
  of executions behind one record (`AbsenceRecords.OneRecordManyExecutions`).
* Metric rows are looked up by reference alone, while the duplicate check covers (reference, type) pairs. Reads
  report every row for a target of the requested type exactly when references are pairwise distinct
  (`MetricAttribution.ReadsAttributeByTypeIffRefsDistinct`, `MetricAttribution.NumberReportedAsText`).
* With a hash that never collides, a decision id belongs to its policy and source state alone exactly when the
  tenant id has no separator after its first character, the policy id none before its last one, and the subject no
  version and source kind, each with a separator behind it, at its start or behind a separator
  (`AlertIdentity.FaithfulIffUnmistakable`). Ambiguous ids
  share whole decisions with a valid policy of another tenant (`Alerts.AmbiguousIdsCollide`,
  `Alerts.TwoTenantsOneDecision`); such subjects share decision ids with another policy of the same tenant
  (`AlertIdentity.HiddenIdentityCollides`, `AlertIdentity.SubjectSharesDecision`). Since subjects are not restricted,
  no policy's ids are safe on all states; between policies with unambiguous ids they always are
  (`Alerts.DecisionIdsIdentify`).
* Quarantined, failed and completed receipts are not final. They change exactly by a delivery under their key that
  disputes them, and incomparable evidence takes any of them back to reconciliation
  (`InboxProofs.FinishedChangesOnlyByDispute`, `AbsenceRecords.CompletedIsReopened`). Only a result and the end of
  execution are final (`JointRuns.ResultEndsExecution`).
* The port of the fence authority is documented to compare an active predecessor; the in-memory authority compares
  scope, epoch and generation only (`Fences.SuccessorWinsIff`, `Fences.SwapReopensSealedScope`). That a predecessor
  was active at the swap holds because the acquisition read it first (`Fences.EpochsFormOneChain`).

## Model

| member | source | states |
|---|---|---|
| `AsyncModel.RequireCurrentExecution` | src/jlmirror_async/execution.py:124-144 | accepts exactly a well-formed current admission for this very request, and answers the authority's own admission, whose tenant context is the request's; everything else is an error |
| `AsyncModel.RequestShapes` | src/jlmirror_async/execution.py:30-50 | a request is well formed exactly for an allowed profile and either one message in its own contract and tenant or one operation |
| `AsyncModel.AdmissionShape` | src/jlmirror_async/execution.py:73-106 | an admission is well formed exactly if its tenant context is the one its own fields determine, or absent without a tenant |
| `AsyncModel.SnapshotShapes` | src/jlmirror_async/model.py:305-357 | a snapshot is well formed exactly in one of four shapes: unreconciled, confirmed, proven absent, still unknown |
| `Leases.HistoryStep` | src/jlmirror_async/inbox.py:456-480 | the law behind retired claims in all three ledgers: a step that grants at most one slot at the next generation keeps every issued claim either retired or held, with strictly increasing generations |
| `OperationLedger.CrossAuthorityOperationLedger.Prepare` | src/jlmirror_async/reconciliation.py:97-108 | creates an operation, or observes one with the same scope; another scope under the same id is refused and changes nothing |
| `OperationLedger.CrossAuthorityOperationLedger.AdmitAttempt` | src/jlmirror_async/reconciliation.py:122-147 | the order of refusals before an attempt: ambiguous, not prepared, bad pointer, bad request, no current admission, lease not after the admission |
| `OperationLedger.CrossAuthorityOperationLedger.BeginAttempt` | src/jlmirror_async/reconciliation.py:110-161 | the new attempt carries the next generation, consumes the resolution pointer and holds the lease; a refused call changes nothing |
| `OperationLedger.CrossAuthorityOperationLedger.ExpireAttempt` | src/jlmirror_async/reconciliation.py:163-175 | lapses the lease into ambiguity exactly when it is over at the given time, and says whether it did |
| `OperationLedger.CrossAuthorityOperationLedger.RequireCurrentAttempt` | src/jlmirror_async/reconciliation.py:355-373 | the guard lets an expired lease lapse first and then accepts exactly the holder; a refusal still leaves the lapse behind |
| `OperationLedger.CrossAuthorityOperationLedger.Complete` | src/jlmirror_async/reconciliation.py:177-193 | the holder's outcome becomes the operation's outcome; anyone else is refused, with only a lapse left behind |
| `OperationLedger.CrossAuthorityOperationLedger.MarkAmbiguous` | src/jlmirror_async/reconciliation.py:195-206 | the holder gives up the attempt into ambiguity under its reason, and the resolution pointer is cleared |
| `OperationLedger.CrossAuthorityOperationLedger.FailTerminal` | src/jlmirror_async/reconciliation.py:208-223 | the holder ends the operation for good under its reason |
| `OperationLedger.CrossAuthorityOperationLedger.Reconcile` | src/jlmirror_async/reconciliation.py:225-265 | adds one record bound to the ambiguous generation, moves the pointer to it and resolves the state by its kind; a revision is never reused for other evidence |
| `OperationLedger.CrossAuthorityOperationLedger.Snapshot` | src/jlmirror_async/reconciliation.py:267-307 | answers exactly the stored operation with the generation its current evidence belongs to, or the error of the first violated rule |
| `OperationProofs.ReconcileKeepsUnique` | src/jlmirror_async/reconciliation.py:247-254 | an accepted reconciliation never makes a second absence record for a generation that has one |
| `OperationProofs.RunKeepsInv` | src/jlmirror_async/reconciliation.py:97-265 | every run keeps scopes, holder fields, the pointer's record, sound records, a gapless chain of absences and their uniqueness |
| `OperationProofs.ExactlyOneAbsence` | src/jlmirror_async/reconciliation.py:110-161 | in every run, each generation before the current one has exactly one record that proves its absence and none that confirms it |
| `OperationProofs.StepExtends` | src/jlmirror_async/reconciliation.py:177-265 | a call never changes a scope, lowers a generation, changes a stored record, or touches a completed or failed operation |
| `OperationProofs.RunExtends` | src/jlmirror_async/reconciliation.py:177-265 | the same over runs: completed and failed are absorbing and evidence is append-only |
| `OperationProofs.SnapshotTotal` | src/jlmirror_async/reconciliation.py:267-307 | in every reachable ledger the snapshot of a prepared operation succeeds and shows the stored operation |
| `OperationProofs.SnapshotOfSound` | src/jlmirror_async/model.py:305-357 | every consistency rule of the snapshot constructor follows from the ledger invariant |
| `OperationProofs.FailingCallFrame` | src/jlmirror_async/reconciliation.py:355-373 | a call that raises writes no evidence and changes nothing but the addressed lease, if it is over at the given time |
| `OperationProofs.OneLiveAttempt` | src/jlmirror_async/reconciliation.py:355-373 | attempts issued for one operation have strictly increasing generations, and no two of them are acceptable, at any two clock values |
| `OperationProofs.PresentingRetires` | src/jlmirror_async/reconciliation.py:177-223 | presenting an issued attempt with valid input retires its generation, accepted or not |
| `OperationProofs.AttemptActsAtMostOnce` | src/jlmirror_async/reconciliation.py:177-223 | an attempt presented once is refused for ever after, for every action, clock value and further run |
| `OperationProofs.RunKeepsRetired` | src/jlmirror_async/reconciliation.py:355-373 | a retired generation stays retired in every run |
| `OperationProofs.NothingElseBecomesProven` | src/jlmirror_async/reconciliation.py:241-265 | a call of a truthful reconciler proves the absence of no generation whose effect has happened |
| `OperationProofs.RunKeepsEffects` | src/jlmirror_async/reconciliation.py:110-265 | in truthful runs every effect that happened belongs to a begun generation whose absence is not recorded |
| `OperationProofs.AtMostOneGenerationTakesEffect` | src/jlmirror_async/reconciliation.py:74-90 | with a truthful reconciler and arbitrarily late executors at most one generation of an operation ever takes effect, and it is the current one |
| `OperationOutcomes.PrepareOutcome` | src/jlmirror_async/reconciliation.py:97-108 | when prepare is accepted, which error it raises otherwise, and every field of a new operation |
| `OperationOutcomes.BeginOutcome` | src/jlmirror_async/reconciliation.py:110-161 | an attempt begins exactly for a prepared operation, a legal request and a current admission before the lease; every field afterwards, and the attempt handed out |
| `OperationOutcomes.BeginErrors` | src/jlmirror_async/reconciliation.py:119-147 | which error a refused attempt raises, in the program's order |
| `OperationOutcomes.ExpireOutcome` | src/jlmirror_async/reconciliation.py:163-175 | true exactly for a held operation whose lease is over; every field of the lapsed operation |
| `OperationOutcomes.CompleteOutcome` | src/jlmirror_async/reconciliation.py:189-193 | an accepted completion: completed with exactly the given result, holder and reason gone, everything else kept |
| `OperationOutcomes.MarkAmbiguousOutcome` | src/jlmirror_async/reconciliation.py:202-206 | an accepted report of ambiguity: ambiguous under the given reason, holder and pointer gone, everything else kept |
| `OperationOutcomes.FailTerminalOutcome` | src/jlmirror_async/reconciliation.py:219-223 | an accepted terminal failure: failed under the given reason, holder gone, pointer and outcome kept |
| `OperationOutcomes.RefusedUnderAttempt` | src/jlmirror_async/reconciliation.py:355-373 | everybody but the holder within the lease is refused, with which error, and leaves at most the lapse |
| `OperationOutcomes.ReconcileOutcome` | src/jlmirror_async/reconciliation.py:225-265 | when a reconciliation is accepted, which error it raises otherwise, the record it adds and every field for each of the three resolutions |
| `OperationOutcomes.CompletionIsShownForEver` | src/jlmirror_async/reconciliation.py:188-193 | after an accepted completion every later snapshot, over any run, shows exactly the given result at that generation |
| `OperationOutcomes.FailureIsTerminal` | src/jlmirror_async/reconciliation.py:217-223 | after an accepted terminal failure no later call, over any run, begins another attempt of the operation or reconciles it |
| `OperationOutcomes.AmbiguityBlocksAttempts` | src/jlmirror_async/reconciliation.py:122-123 | after a report of ambiguity no attempt begins until a reconciliation proves absence |
| `InboxLedger.ReceiptRecord.Observe` | src/jlmirror_async/inbox.py:105-137 | what an admit of a known key does: conflicting binding or content quarantines, incomparable evidence blocks, equivalent evidence only observes |
| `InboxLedger.ReceiptRecord.SnapshotFor` | src/jlmirror_async/inbox.py:426-454 | one snapshot is accepted exactly when it is well formed and has the operation, owner contract and tenant of the receipt |
| `InboxLedger.ReceiptRecord.Act` | src/jlmirror_async/inbox.py:211-325 | what each of the five claim calls does to an accepted receipt, in which order it refuses, and that a refusal writes nothing |
| `InboxLedger.InboxLedger.Admit` | src/jlmirror_async/inbox.py:87-137 | creates a receipt for a new key or observes the stored one |
| `InboxLedger.InboxLedger.Require` | src/jlmirror_async/inbox.py:414-424 | finds a receipt only under the complete trusted identity; a matching key alone is an integrity conflict |
| `InboxLedger.InboxLedger.AdmitExecution` | src/jlmirror_async/inbox.py:151-174 | the order of refusals before a claim, and the lease bound against the admission's time |
| `InboxLedger.InboxLedger.ClaimEffect` | src/jlmirror_async/inbox.py:139-188 | only an admitted receipt gives a claim; it carries the next generation and clears the revision |
| `InboxLedger.InboxLedger.ExpireProcessingClaim` | src/jlmirror_async/inbox.py:190-209 | lapses the lease into reconciliation exactly when it is over |
| `InboxLedger.InboxLedger.RequireCurrentClaim` | src/jlmirror_async/inbox.py:456-480 | lets an expired lease lapse first and then accepts exactly the holder |
| `InboxLedger.InboxLedger.UnderClaim` | src/jlmirror_async/inbox.py:211-325 | the five calls made under a claim: guard, then action; a refused call leaves only the lapse |
| `InboxLedger.InboxLedger.ReconcileRetryEligible` | src/jlmirror_async/inbox.py:327-355 | re-admits only from one snapshot of the bound operation that proves absence, and stores its revision |
| `InboxLedger.InboxLedger.ReconcileCompleted` | src/jlmirror_async/inbox.py:357-393 | completes a blocked receipt only with the confirmed outcome of its bound operation |
| `InboxProofs.StepIsLedgerStep` | src/jlmirror_async/inbox.py:87-393 | every call moves at most the addressed receipt, by one of six transitions, and never its identity or comparison evidence, whatever the operation authority answers |
| `InboxProofs.StepKeepsInv` | src/jlmirror_async/inbox.py:159-188 | receipts sit under their own keys, and exactly processing ones have an executor, a lease and an admission for their own message |
| `InboxProofs.FailingCallFrame` | src/jlmirror_async/inbox.py:456-480 | a call that raises leaves the inbox unchanged but for the addressed lease, if it is over |
| `InboxProofs.FinishedChangesOnlyByDispute` | src/jlmirror_async/inbox.py:105-127 | completed, failed and quarantined receipts change exactly by a delivery under their key with another identity or non-equivalent evidence, which leads to the stated state with the result untouched |
| `InboxProofs.IncomparableEvidenceBlocks` | src/jlmirror_async/inbox.py:121-127 | the input that moves a receipt in any state to reconciliation: its own identity with incomparable evidence |
| `InboxProofs.OneLiveClaim` | src/jlmirror_async/inbox.py:456-480 | claims issued for one message have strictly increasing generations and no two of them are acceptable |
| `InboxProofs.RefusalRetires` | src/jlmirror_async/inbox.py:456-480 | an issued claim that is refused at some time has lost its generation for good |
| `InboxProofs.RefusedClaimStaysRefused` | src/jlmirror_async/inbox.py:456-480 | an issued claim refused once is refused for ever, whatever calls, authorities and clock values follow |
| `InboxProofs.RunKeepsRetired` | src/jlmirror_async/inbox.py:456-480 | a retired generation stays retired in every run |
| `InboxProofs.RunKeepsIdentities` | src/jlmirror_async/inbox.py:87-137 | first-written identity and comparison evidence never change in any run |
| `InboxProofs.EquivalentIsEqual` | src/jlmirror_async/model.py:127-141 | the comparison is symmetric, and calls two pieces of evidence equivalent exactly when they are equal |
| `InboxProofs.StepSees` | src/jlmirror_async/inbox.py:113-137 | the first deliveries can be read off the calls alone, and a redelivery of one leaves the ledger as it is |
| `InboxProofs.ErasureIsInvisible` | src/jlmirror_async/inbox.py:87-137 | from any ledger, a run with and without its redeliveries ends in the same ledger with the same remaining answers |
| `InboxProofs.RedeliveryInsensitive` | src/jlmirror_async/inbox.py:87-137 | the same from the empty inbox: redeliveries are invisible |
| `InboxOutcomes.AdmitAnswers` | src/jlmirror_async/inbox.py:96-137 | each of the five answers of admit exactly when it is given, read off the stored receipt |
| `InboxOutcomes.AdmitWrites` | src/jlmirror_async/inbox.py:98-128 | every field that an admit writes: a new receipt, a suspension that keeps all history, or nothing |
| `InboxOutcomes.DuplicateMeansResult` | src/jlmirror_async/inbox.py:129-130 | in joint runs a delivery is answered as a completed duplicate only if its receipt has a result, which for a bound receipt is the completed operation's own outcome |
| `InboxOutcomes.ClaimOutcome` | src/jlmirror_async/inbox.py:139-188 | a claim is given exactly for an admitted receipt, a legal request and a current admission before the lease; every field afterwards, and the claim handed out |
| `InboxOutcomes.ClaimErrors` | src/jlmirror_async/inbox.py:148-174 | which error a refused claim raises, in the program's order |
| `InboxOutcomes.ExpireOutcome` | src/jlmirror_async/inbox.py:190-209 | true exactly for a held receipt whose lease is over; every field of the lapsed receipt |
| `InboxOutcomes.CompleteLocalOutcome` | src/jlmirror_async/inbox.py:222-231 | the holder completes exactly an unbound receipt with exactly the given result; every field |
| `InboxOutcomes.CompleteCrossOutcome` | src/jlmirror_async/inbox.py:247-268 | the holder completes a bound receipt exactly from a snapshot in scope that shows this very outcome without any reconciliation; every field |
| `InboxOutcomes.BindOutcome` | src/jlmirror_async/inbox.py:281-290 | the holder binds exactly an operation that the authority shows in scope, and never rebinds; every field |
| `InboxOutcomes.RequireReconciliationOutcome` | src/jlmirror_async/inbox.py:302-308 | the holder blocks the receipt under its reason; every field |
| `InboxOutcomes.FailTerminalOutcome` | src/jlmirror_async/inbox.py:320-325 | the holder fails the receipt under its reason, with the revision kept; every field |
| `InboxOutcomes.RefusedUnderClaim` | src/jlmirror_async/inbox.py:456-480 | everybody but the holder within the lease is refused, with which error, and leaves at most the lapse |
| `InboxOutcomes.RetryOutcome` | src/jlmirror_async/inbox.py:334-355 | a blocked, bound receipt is admitted again exactly from a snapshot in scope that proves absence; every field, and which error otherwise |
| `InboxOutcomes.ConfirmOutcome` | src/jlmirror_async/inbox.py:366-393 | a blocked, bound receipt is completed exactly from a snapshot in scope that confirms this very outcome; every field, and which error otherwise |
| `JointRuns.PortFacts` | src/jlmirror_async/inbox.py:439-454 | an accepted snapshot of the ledger in use is the stored operation in the receipt's scope, with its absence record |
| `JointRuns.RunKeepsInv` | src/jlmirror_async/inbox.py:139-393 | every interleaving of both ledgers keeps scopes joined, results final and re-executions justified |
| `JointRuns.ResultEndsExecution` | src/jlmirror_async/inbox.py:211-268 | a receipt that has a result is never again admitted or processing, and its result, generation and operation are frozen |
| `JointRuns.ResultAgreesWithOperation` | src/jlmirror_async/inbox.py:252-268 | a result of a receipt bound to an operation is, then and at every later time, that completed operation's own outcome |
| `JointRuns.SecondExecutionJustified` | src/jlmirror_async/inbox.py:327-355 | a receipt without an operation executes at most once; one that executed twice is, in every state, bound to an operation with a stored proof of absence, and while admitted again it names one |
| `JointRuns.ScopesAgree` | src/jlmirror_async/inbox.py:414-454 | receipt, bound operation and both admissions always agree on tenant, owner contract and identity |
| `JointRuns.RunKeepsBinding` | src/jlmirror_async/inbox.py:282-290 | a receipt that is bound to an operation stays bound to it over every joint run, before and after any result |
| `JointRuns.RunKeepsStored` | src/jlmirror_async/model.py:119-125 | runs of calls with constructible values store only constructible identities and evidence |
| `JointEffects.RunKeepsEffects` | src/jlmirror_async/reconciliation.py:241-265 | joint runs with a truthful reconciler keep what the operation ledger knows about effects, whatever the inbox does |
| `JointEffects.AtMostOneEffectPerReceipt` | src/jlmirror_async/inbox.py:270-290 | with a truthful reconciler, a receipt that was ever bound to an operation has at most one effect through it across both ledgers, by the operation's current generation |
| `AbsenceRecords.ReadmitsAgainIffNoLaterAttempt` | src/jlmirror_async/inbox.py:327-355 | in every world reached by calls with constructible values, a stored proof of absence can re-admit a bound receipt, now or after further such calls, exactly when no later attempt of the operation was begun, in every state of the receipt |
| `AbsenceRecords.SpentForEver` | src/jlmirror_async/inbox.py:346-352 | a record of an earlier generation never re-admits the receipt again, in any joint run |
| `AbsenceRecords.RetryReadmits` | src/jlmirror_async/inbox.py:327-355 | a blocked receipt is admitted again under a record of the current generation, and only its state and revision change |
| `AbsenceRecords.AbsenceIsReusable` | src/jlmirror_async/inbox.py:327-355 | in joint runs from the start, one record re-admits the same receipt n times, for every n, while the operation ledger stays as it is |
| `AbsenceRecords.OneRecordManyExecutions` | src/jlmirror_async/inbox.py:139-209 | a run from the start with constructible values, for every n, after which one stored record stands behind n + 1 executions of one receipt |
| `AbsenceRecords.CompletedIsReopened` | src/jlmirror_async/inbox.py:121-127 | the run admit, claim, complete, admit, with constructible values, takes a completed receipt back to reconciliation, with its result kept |
| `OutboxLedger.OutboxLedger.AppendCommitted` | src/jlmirror_async/outbox.py:121-138 | appends a new message under the next record id, finds an equal one, or refuses another message under the same identity |
| `OutboxLedger.OutboxLedger.ExpireClaims` | src/jlmirror_async/outbox.py:264-274 | the loop releases exactly the claims that are over |
| `OutboxLedger.OutboxLedger.ClaimNext` | src/jlmirror_async/outbox.py:140-170 | after expiry the least pending record is claimed under the next generation |
| `OutboxLedger.OutboxLedger.GrabFirst` | src/jlmirror_async/outbox.py:154-170 | the ascending scan stops at the first pending record and changes no other |
| `OutboxLedger.OutboxLedger.UnderClaim` | src/jlmirror_async/outbox.py:172-240 | the four calls made under a claim: expiry of all claims, guard, then action |
| `OutboxLedger.OutboxLedger.ActOnCurrent` | src/jlmirror_async/outbox.py:276-290 | accepts exactly the holder of the record and otherwise changes nothing more |
| `OutboxLedger.OutboxLedger.PendingMessages` | src/jlmirror_async/outbox.py:254-262 | expires claims if a time is given, then lists the pending messages |
| `OutboxLedger.OutboxLedger.CollectPending` | src/jlmirror_async/outbox.py:258-262 | the listing is the pending messages in ascending order of record ids |
| `OutboxProofs.RunKeepsInv` | src/jlmirror_async/outbox.py:121-240 | in every run record ids are exactly 1 to next - 1, the index inverts the table, attempts equal generations, and a publication receipt is there exactly when published |
| `OutboxProofs.StepOnLog` | src/jlmirror_async/outbox.py:121-138 | every call leaves the log of messages alone, except that a new identity is appended at its end |
| `OutboxProofs.RunExtendsLog` | src/jlmirror_async/outbox.py:121-138 | the log only grows; no message ever changes or moves |
| `OutboxProofs.IndexInvertsLog` | src/jlmirror_async/outbox.py:119-138 | the identity index is the inverse of the log, in both directions |
| `OutboxProofs.KnownMeansIndexed` | src/jlmirror_async/outbox.py:125-126 | an identity is indexed exactly when the log has a message under it |
| `OutboxProofs.AppendFailsOnConflict` | src/jlmirror_async/outbox.py:125-133 | append fails exactly when the log has another message under the same identity, and then changes nothing |
| `OutboxProofs.AppendIsIdempotent` | src/jlmirror_async/outbox.py:121-138 | a successful append answers with the message's place in the log, and repeating it changes nothing |
| `OutboxProofs.FinalEntriesStay` | src/jlmirror_async/outbox.py:172-224 | published and quarantined entries never change again |
| `OutboxProofs.FailingCallFrame` | src/jlmirror_async/outbox.py:276-290 | a call that raises only releases claims that are over; the lookup behind the index never fails |
| `OutboxProofs.ExpireTwice` | src/jlmirror_async/outbox.py:264-274 | two expiries are one at the later time, in either order |
| `OutboxProofs.ExpirySequence` | src/jlmirror_async/outbox.py:264-274 | any sequence of expiries is one expiry at the latest of its times |
| `OutboxProofs.PendingExact` | src/jlmirror_async/outbox.py:254-262 | the list of pending records is exact |
| `OutboxProofs.PendingAscending` | src/jlmirror_async/outbox.py:254-262 | the list of pending records is strictly ascending |
| `OutboxProofs.HeadIsEarliest` | src/jlmirror_async/outbox.py:154-157 | the head of the pending list is the least pending record |
| `OutboxProofs.ClaimTakesEarliest` | src/jlmirror_async/outbox.py:140-170 | a claim is for the earliest pending record, takes exactly it out of the pending ones, and is absent exactly when none is pending |
| `OutboxProofs.PendingMessagesInLogOrder` | src/jlmirror_async/outbox.py:254-262 | the i-th listed message is the log's message at the i-th pending record |
| `OutboxProofs.DrainsInAppendOrder` | src/jlmirror_async/outbox.py:140-224 | k rounds that publish or quarantine in time close exactly the first k pending records, in append order, each with its own verdict, while others may hold claims that are not over |
| `OutboxProofs.ClaimsInOrder` | src/jlmirror_async/outbox.py:140-240 | from any ledger whose pending records are those behind m, a run that gives nothing back claims record m + 1, m + 2 and so on |
| `OutboxProofs.ClaimsFollowTheLog` | src/jlmirror_async/outbox.py:140-240 | in every run in which no claimed record is given back, with appends and several holders at any time, the i-th claim is for record i and hands out the log's i-th message, and exactly the later records are pending |
| `OutboxProofs.OneLiveClaim` | src/jlmirror_async/outbox.py:276-290 | claims issued for one record have strictly increasing generations and no two of them are acceptable |
| `OutboxProofs.ClaimActsAtMostOnce` | src/jlmirror_async/outbox.py:172-240 | a claim presented once is refused for ever after |
| `OutboxProofs.RunKeepsRetired` | src/jlmirror_async/outbox.py:276-290 | a retired generation stays retired in every run |
| `OutboxOutcomes.AppendOutcome` | src/jlmirror_async/outbox.py:134-138 | every field of a newly appended record, and the index entry |
| `OutboxOutcomes.ExpiryGivesBack` | src/jlmirror_async/outbox.py:264-274 | a claim that is over makes its record pending again under the stated class, with message, generation and attempts kept, and nothing else changes |
| `OutboxOutcomes.ClaimOutcome` | src/jlmirror_async/outbox.py:146-169 | every field of a claimed record and of the claim handed out, and when the call is refused |
| `OutboxOutcomes.UnderClaimOutcome` | src/jlmirror_async/outbox.py:172-240 | accepted exactly for the holder within the lease; every field after publication, ambiguity, quarantine and release; a refusal leaves only the expiry |
| `OutboxOutcomes.ClosedOnlyByAcceptedCalls` | src/jlmirror_async/outbox.py:172-240 | in every run a record is published exactly if a publication was accepted for it, with that receipt, and quarantined exactly if a quarantine was, under that class |
| `OutboxOutcomes.EveryOpenRecordIsHandedOut` | src/jlmirror_async/outbox.py:103-113 | at least once: from every reachable ledger, further claims alone hand out every record that is not closed, with its own message |
| `Fences.InMemoryFenceAuthority.AcquireSuccessor` | app/auth.py:242-266 | swaps in the successor of the next epoch exactly when epoch and generation of the stored record are the expected ones |
| `Fences.InMemoryFenceAuthority.BootstrapScope` | app/auth.py:268-277 | writes a record of epoch 1 whatever was stored before |
| `Fences.InMemoryFenceAuthority.AdmitFencedEffect` | src/jlmirror_authority/fencing.py:73-95 | admits exactly the token of the current active record |
| `Fences.InMemoryFenceAuthority.AcquireNextFence` | src/jlmirror_authority/fencing.py:98-155 | without interleaving, the read checks and the swap compose in the program's order of refusals |
| `Fences.SwapFacts` | src/jlmirror_authority/fencing.py:138-155 | a pending swap either replaces the very record that was read by its direct successor or changes nothing |
| `Fences.ReadOutcome` | src/jlmirror_authority/fencing.py:107-136 | an acquisition starts exactly for the active record of the expected epoch and generation and legal names |
| `Fences.AcquireOutcome` | src/jlmirror_authority/fencing.py:138-155 | an acquisition that nothing interleaves with wins whenever it may start; the record it stores, field by field |
| `Fences.AdmitOutcome` | src/jlmirror_authority/fencing.py:84-95 | a token is admitted exactly if scope, epoch and generation are those of the stored record and that is active |
| `Fences.WinnerReplacesToken` | src/jlmirror_authority/fencing.py:73-155 | after a win the new token is admitted exactly if the new state is active, and no token of the old epoch is |
| `Fences.BootstrapOutcome` | app/auth.py:268-277 | every field of a bootstrapped record, and when it is refused |
| `Fences.RunKeepsInv` | src/jlmirror_authority/fencing.py:98-155 | every interleaving of reads and swaps keeps one chain of wins per scope and sound pending acquisitions |
| `Fences.EpochsFormOneChain` | src/jlmirror_authority/fencing.py:98-155 | epochs grow by exactly one per win inside the signed 64-bit range, each predecessor was active, and each epoch has at most one winner |
| `Fences.StepOnScope` | src/jlmirror_authority/fencing.py:98-155 | a record is only ever replaced by a record of the next epoch, and never once it is not active |
| `Fences.RunOnScope` | src/jlmirror_authority/fencing.py:98-155 | the same over runs |
| `Fences.NonActiveSealsScope` | src/jlmirror_authority/fencing.py:68-95 | a record that is not active is final, against pending and later acquisitions, and admits no token |
| `Fences.SupersededNeverAdmitted` | src/jlmirror_authority/fencing.py:73-95 | a token of a passed epoch is never admitted again |
| `Fences.BootstrapRevivesExactlyItsFirstToken` | app/auth.py:268-277 | bootstrapping a live scope admits exactly the first token of the new generation, superseded or not |
| `Fences.SuccessorWinsIff` | app/auth.py:251-266 | the exact condition under which the swap wins, which is about scope, epoch, generation and range only, and what it writes |
| `Fences.SuccessorIgnoresState` | app/auth.py:254-258 | whatever state the stored record is in, the swap answers and writes the same |
| `Fences.SwapReopensSealedScope` | src/jlmirror_authority/fencing.py:56-65 | bootstrap and one swap to a sealed state reach a record that an acquisition refuses to read; the swap alone replaces it, and the new token is admitted |
| `Sessions.SessionStore.Create` | apps/g1-identity-tenant-shell/bff_server.py:117-122 | stores a record exactly when its handle is not taken |
| `Sessions.SessionStore.RotateTo` | apps/g1-identity-tenant-shell/bff_server.py:128-145 | retires the predecessor and stores the successor exactly when the predecessor is unretired at the expected generation |
| `Sessions.SessionStore.RetireSession` | apps/g1-identity-tenant-shell/bff_server.py:147-153 | retires a record exactly when it is unretired at the expected generation |
| `Sessions.SessionStore.Issue` | src/jlmirror_authority/session.py:184-205 | stores the first of three draws that does not collide, and fails without a trace otherwise |
| `Sessions.SessionStore.ResolveBrowserSession` | src/jlmirror_authority/session.py:208-216 | answers the stored record exactly when it is under its own handle and current at the given time |
| `Sessions.SessionStore.RotateBrowserSession` | src/jlmirror_authority/session.py:219-274 | without interleaving: the refusals in the program's order, and a rotation that reaches the swap wins it |
| `Sessions.SessionStore.RetireBrowserSession` | src/jlmirror_authority/session.py:277-285 | without interleaving: a session that is current is retired, any other is refused and nothing changes |
| `SessionWindows.ResolveOutcome` | src/jlmirror_authority/session.py:208-216 | a session resolves exactly if it is stored under its own handle, unretired, of an active principal, from its creation on and before its expiry |
| `SessionWindows.NewRecordOutcome` | src/jlmirror_authority/session.py:130-181 | when a record can be made, which error otherwise, and every field: bound to its fresh generation, from now for exactly the lifetime |
| `SessionWindows.IssueOutcome` | src/jlmirror_authority/session.py:194-205 | the first draw that does not collide is stored, and if all collide nothing is |
| `SessionWindows.RotationOutcome` | src/jlmirror_authority/session.py:230-273 | a rotation reaches the swap exactly for an open session and legal reauthentication; every field of the successor |
| `SessionWindows.RetirementOutcome` | src/jlmirror_authority/session.py:280-284 | a retirement reaches the swap exactly for an open session |
| `SessionWindows.SwapOutcome` | apps/g1-identity-tenant-shell/bff_server.py:135-153 | the swaps win exactly on an unretired record of the expected generation, and what they store |
| `SessionWindows.SessionsLiveInTheirWindow` | src/jlmirror_authority/session.py:91-96 | over every run a stored session of an active principal resolves, while unretired, exactly inside its own time |
| `SessionWindows.IssuedSessionLives` | src/jlmirror_authority/session.py:174-205 | end to end: a session issued at t for n resolves, while unretired, exactly at the times from t on and before t + n |
| `Sessions.RunKeepsInv` | src/jlmirror_authority/session.py:184-285 | every interleaving of issuing, rotating and retiring keeps lineages, pending swaps, records and wins sound |
| `Sessions.UnretiredIsLast` | apps/g1-identity-tenant-shell/bff_server.py:128-145 | an unretired record is the last of its lineage |
| `Sessions.LineagesAreChains` | src/jlmirror_authority/session.py:219-274 | each lineage is a chain of distinct handles of one principal id and kind, with at most one unretired record |
| `Sessions.OneWinPerRecord` | apps/g1-identity-tenant-shell/bff_server.py:128-153 | at most one rotation or retirement wins a record, and exactly the won records are retired |
| `Sessions.RecordsBindTheirGeneration` | src/jlmirror_authority/session.py:130-181 | every stored record's credential generation and strength evidence are those of its own session generation |
| `ProblemOrder.SortIsStable` | apps/g5-problem-health/bff_server.py:466-467 | the second sort keeps the order of rows opened at the same time |
| `ProblemOrder.OrderedUnique` | src/jlmirror_monitoring/problem_reads.py:143-144 | two lists in display order with the same rows are the same list |
| `ProblemOrder.PrecedesExactly` | src/jlmirror_monitoring/problem_reads.py:143-144 | the later opening comes first, and at the same time the id that is smaller at the first difference does |
| `ProblemOrder.TwoPassesAreOne` | apps/g5-problem-health/bff_server.py:466-467 | for unique ids, sorting by id and then stably by descending opening time is the one sort by the pair of keys |
| `ProblemPages.SelectThenSort` | apps/g5-problem-health/bff_server.py:154-167 | the keyset predicate may be applied before or after ordering |
| `ProblemPages.ViewIsFilteredTable` | src/jlmirror_monitoring/problem_reads.py:147-170 | the list that is paged through has exactly the rows that every filter admits, each as often as the table |
| `ProblemPages.SortKeepsExactlyAscending` | src/jlmirror_monitoring/problem_reads.py:199-200 | the order check passes exactly for lists in display order, repeated rows included |
| `ProblemPages.PageOutcome` | src/jlmirror_monitoring/problem_reads.py:196-209 | whatever rows a repository answers, the page is made exactly if length, order, filters and byte budget hold, and what it shows |
| `ProblemPages.BytesAddUp` | src/jlmirror_monitoring/problem_reads.py:205-206 | the byte count is additive and counts a single row with its own size |
| `ProblemPages.ListOutcome` | src/jlmirror_monitoring/problem_reads.py:181-196 | which limits and cursors are refused, and which rows are asked for otherwise |
| `ProblemPages.KeysetIsSuffix` | apps/g5-problem-health/bff_server.py:157-165 | in display order the keyset predicate selects exactly the rows behind the anchor |
| `ProblemPages.FetchIsSlice` | apps/g5-problem-health/bff_server.py:154-167 | filter, keyset, order and limit together fetch a slice of the ordered, filtered list |
| `ProblemPages.PageIsSlice` | src/jlmirror_monitoring/problem_reads.py:173-209 | a page read with the cursor of position k is the slice from k on with the cursor of its end, or the budget error |
| `ProblemPages.StrangeCursorRefused` | src/jlmirror_monitoring/problem_reads.py:183-194 | a cursor that names no row in the current filters is refused |
| `ProblemPages.WalkFrom` | src/jlmirror_monitoring/problem_reads.py:203-209 | over any pages that are slices, following the cursors from any position yields exactly the rest of the list |
| `ProblemPages.WalkIsExact` | src/jlmirror_monitoring/problem_reads.py:173-209 | following the cursors terminates and yields the whole list once, in order, exactly when every page fits its byte budget |
| `ProblemPages.ListByPosition` | apps/g5-problem-health/bff_server.py:466-476 | the in-memory port, sorting twice and cutting at the cursor's position, shows the same slices |
| `ProblemPages.CursorDeterminesPosition` | apps/g5-problem-health/bff_server.py:468-472 | a cursor names at most one position |
| `Spiffe.PrintedSplits` | src/jlmirror_authority/workload.py:63-68 | splitting a printed id gives back domain and segments, whatever their length |
| `Spiffe.PrintThenParse` | src/jlmirror_authority/workload.py:93-133 | parsing a printed id gives the identity back exactly when its runtime profile has at most 128 characters, and is denied otherwise |
| `Spiffe.ParseAcceptsExactlyPrinted` | src/jlmirror_authority/workload.py:93-133 | the parser accepts exactly the printed forms of valid identities with such a profile, and answers the printed identity |
| `Spiffe.PrintInjective` | src/jlmirror_authority/workload.py:63-68 | distinct valid identities never print alike |
| `Spiffe.PrintedEnvironments` | src/jlmirror_authority/workload.py:63-68 | the printed form of an identity in each of the four environments |
| `Spiffe.LongProfileDenied` | src/jlmirror_authority/workload.py:53-61 | valid identities exist, for every greater length, whose own printed id the parser denies |
| `Spiffe.ProfileSegment` | src/jlmirror_authority/workload.py:11-12 | a runtime profile is a path segment exactly when it has at most 128 characters |
| `Alerts.QuietForEver` | apps/g7-alert-policy-lifecycle/domain.py:141-149 | once an alert is active exactly when the policy matches, or evidence is stale, no evaluation decides on any action |
| `Alerts.AtMostOneEffect` | apps/g7-alert-policy-lifecycle/domain.py:118-149 | against a fixed source state, after one creation or resolution every later evaluation decides on none, while the policy comes into or goes out of force |
| `Alerts.StaleEvidenceIsQuiet` | apps/g7-alert-policy-lifecycle/domain.py:66-73 | evidence that is not current never creates or resolves |
| `Alerts.FailsForEver` | apps/g7-alert-policy-lifecycle/domain.py:125-139 | a binding error does not depend on effectiveness and repeats for ever |
| `AlertDecisions.MatchesExactly` | apps/g7-alert-policy-lifecycle/domain.py:101-115 | a state matches exactly if its evidence is current and it is of the kind the policy is about, with severity at or above the threshold |
| `AlertDecisions.EvaluateOutcome` | apps/g7-alert-policy-lifecycle/domain.py:118-149 | when an evaluation succeeds; it creates exactly without an active alert, on current matching evidence and in force, and resolves exactly with an active alert on current evidence that does not match |
| `AlertDecisions.HashedTexts` | apps/g7-alert-policy-lifecycle/domain.py:151-179 | the very texts that decision id, decision hash and alert id hash, with their prefixes |
| `AlertDecisions.CreatesAtFirstStepInForce` | apps/g7-alert-policy-lifecycle/domain.py:141-149 | over any sequence of evaluations from no active alert, exactly the first step in force creates, if the state is current and matches, and no other step does anything |
| `AlertDecisions.ResolvesAtOnceOrNever` | apps/g7-alert-policy-lifecycle/domain.py:141-149 | over any sequence of evaluations with an active alert, the first step resolves it exactly if the state is current and does not match, and no other step does anything |
| `Alerts.DecimalInjective` | apps/g7-alert-policy-lifecycle/domain.py:155-159 | decimal texts of distinct integers are distinct and free of the separator |
| `Alerts.IdsSplit` | apps/g7-alert-policy-lifecycle/domain.py:166-170 | two non-empty ids are determined by the joined text if the first has no separator after its first character and the second none before its last |
| `Alerts.DecisionIdsIdentify` | apps/g7-alert-policy-lifecycle/domain.py:165-176 | for policies with such ids, any subjects, and a hash that does not collide on the two texts, decision ids agree exactly when all six components do |
| `AlertIdentity.FaithfulIffUnmistakable` | apps/g7-alert-policy-lifecycle/domain.py:165-176 | a decision id belongs to its policy and state alone, among all valid policies and all states, exactly when the ids have that shape and the subject has no version and kind, each with a separator behind it, at its start or behind a separator; collisions otherwise hold for every hash, the other half for one that never collides |
| `AlertIdentity.HiddenIdentityCollides` | apps/g7-alert-policy-lifecycle/domain.py:165-179 | for every state whose subject has such a version and kind, and every valid policy, another valid policy of the same tenant and content shares the decision id on another state, and with it the id of the alert to create |
| `AlertIdentity.SubjectSharesDecision` | apps/g7-alert-policy-lifecycle/domain.py:118-191 | a concrete pair: a policy with ids of that shape and another valid policy both create an alert under one decision id and one alert id |
| `Alerts.OwnIffUnambiguous` | apps/g7-alert-policy-lifecycle/domain.py:165-176 | among renamings that keep version, kind, subject and revision, none shares the decision id exactly when the ids have that shape |
| `Alerts.MaterialInjective` | apps/g7-alert-policy-lifecycle/domain.py:151-163 | the joined material determines each of its nine components, whatever the subject |
| `Alerts.DecisionHashesIdentify` | apps/g7-alert-policy-lifecycle/domain.py:151-164 | if also policy content and alert id are free of the separator, decision hashes agree exactly when identity, policy content, action and active alert all do |
| `AlertIdentity.AlertIdSharesHash` | apps/g7-alert-policy-lifecycle/domain.py:151-164 | two evaluations that resolve alerts of different subjects under one decision hash, because one alert id has separators |
| `AlertIdentity.ContentSharesHash` | apps/g7-alert-policy-lifecycle/domain.py:151-164 | two evaluations of different policy contents and subjects under one decision hash, because one content has separators |
| `Alerts.AlertIdsIdentify` | apps/g7-alert-policy-lifecycle/domain.py:178-179 | an alert id determines the creating decision and the policy content |
| `Alerts.AmbiguousIdsCollide` | apps/g7-alert-policy-lifecycle/domain.py:118-191 | a valid policy whose ids do not have that shape gets, for the corresponding state, the very same decision as a valid policy of another tenant: same id, hash, action and alert |
| `Alerts.TwoTenantsOneDecision` | apps/g7-alert-policy-lifecycle/domain.py:118-191 | a concrete pair of valid policies of two tenants whose evaluations create an alert with one and the same decision |
| `MetricHistory.GroupTargets` | src/jlmirror_monitoring/metric_history.py:202-214 | the grouping loop finds a duplicate exactly when a (reference, type) pair repeats, and otherwise fills both tables exactly |
| `MetricHistory.RequestAll` | src/jlmirror_monitoring/metric_history.py:233-262 | one request per type that has targets, in ascending order of types, up to the first fault |
| `MetricHistory.AttributeAll` | src/jlmirror_monitoring/metric_history.py:285-307 | one observation per returned row, for the target that the lookup by reference finds |
| `MetricHistory.ReadMetricHistoryWindow` | src/jlmirror_monitoring/metric_history.py:189-318 | the whole read: refusals in the program's order, requests, attribution and coverage |
| `MetricHistory.RequestsPartitionTargets` | src/jlmirror_monitoring/metric_history.py:202-214 | every target is requested exactly once, and with its own type |
| `MetricHistory.ReadAllExact` | src/jlmirror_monitoring/metric_history.py:233-262 | the requests succeed with exactly the answers' rows one after the other, each below the bound and about its own references |
| `MetricHistory.SuccessConservesRows` | src/jlmirror_monitoring/metric_history.py:285-318 | on success the observations report the returned rows one for one and in order; a failing read reports none |
| `MetricFailures.RefusedBeforeReading` | src/jlmirror_monitoring/metric_history.py:196-231 | what is refused before any request, and with which failure and evidence |
| `MetricFailures.FirstFailingRequestDecides` | src/jlmirror_monitoring/metric_history.py:235-283 | the first request that fails, in ascending type, decides failure and evidence, whatever later ones would answer |
| `MetricFailures.PassedReadOutcome` | src/jlmirror_monitoring/metric_history.py:285-318 | if all requests pass, the read succeeds exactly if every row parses, and is final exactly below the bound |
| `MetricHistory.AttributionByTypeIffRefsDistinct` | src/jlmirror_monitoring/metric_history.py:202-214 | of the lookup table: without duplicate pairs, each requested reference finds a target of the requested type exactly when references are pairwise distinct |
| `MetricAttribution.OriginsExact` | src/jlmirror_monitoring/metric_history.py:235-262 | the types noted for the rows of a successful read are those of the requests that returned them, row by row |
| `MetricAttribution.ReadsAttributeByTypeIffRefsDistinct` | src/jlmirror_monitoring/metric_history.py:285-307 | for a list of targets that a read accepts: references are pairwise distinct exactly when every successful read, with any reader and parser, reports its k-th row for a target of the type of the request that returned it |
| `MetricAttribution.SharedRefMisreports` | src/jlmirror_monitoring/metric_history.py:285-307 | if two accepted targets share a reference, there is a reader whose one row, legal for every kind, is asked for under one type and reported for a target of another |
| `MetricAttribution.NumberReportedAsText` | src/jlmirror_monitoring/metric_history.py:202-214 | a concrete accepted list whose row, requested as a number of one definition, is reported as a text of another |

## Left out

- Threads and locks: every ledger call holds its lock throughout, so a call is one atomic step; only fences and sessions, whose read and swap are separate calls, are interleaved.
- Time zones: instants are integers, so the errors for naive timestamps do not arise.
- Type errors: arguments of the wrong class cannot be written in the model.
- Validity of value objects (message identities, comparison evidence, result links, messages): for-all statements hold for values that no constructor accepts as well; statements that a run exists are about values that constructors accept (`JointRuns.WellFormed`).
- LogicalMessage: its remaining immutable fields are one opaque `content`, compared as a whole; `tenant_message_from_context` is not part of this model.
- Execution authority calls: the authority may answer anything but does not call back into the ledger.
- InboxLedger.InboxLedger.UnderClaim: the five methods that act under an inbox claim are one method with an action argument, because they share their guard; their bodies are the branches of `ReceiptRecord.Act`.
- OutboxLedger.OutboxLedger.UnderClaim: likewise the four methods that act under an outbox claim, with their bodies in `OutboxEntry.Act`.
- Getters (`state`, `outcome`, `result_link`, `operation_id`, `message`, `attempt_count`, `current` of the fence authority, `resolve` of the session store and similar): they read one field or entry, so no row is given to them.
- Dictionary order: the outbox dictionary is walked in ascending order of ids, which is its insertion order because ids are handed out in ascending order and never removed.
- Fences.RunKeepsInv: runs never bootstrap a scope that exists; what such a bootstrap does is stated on its own by `Fences.BootstrapRevivesExactlyItsFirstToken`.
- Sessions.RunKeepsInv: successor handles of rotations are not yet in the store, which stands for drawing 384 random bits; issuing does handle collisions.
- Session strength evidence: all fields that rotation only carries along are one opaque `detail`; the digest of a handle stands for the handle.
- ProblemPages.WalkIsExact: the table does not change while the cursors are followed, and ids are unique inside a tenant; text is compared character by character, while the database compares by its collation.
- Problem reads: authorization before each page, the filters' own validation and the fixture's tenant check are not part of this model; sorting is the stable sort that insertion gives.
- ProblemPages.ListByPosition: the successive filters are one function, and the two in-place sorts are sorts of a sequence value.
- Spiffe.PrintThenParse: the two normalisations that URL splitting performs first (leading control characters, tabs and line breaks) are modelled; user info, ports and brackets are one check, since all of them end in the same denial; characters outside ASCII are denied by the grammar.
- `admit_workload_peer`: a chain of comparisons, each settled by reading it.
- Alerts.DecisionHashesIdentify: asks that policy content and alert id are free of the separator; `AlertIdentity.AlertIdSharesHash` and `AlertIdentity.ContentSharesHash` show that hashes are shared without, but which contents and alert ids are harmless is not stated exactly.
- Alerts.DecisionIdsIdentify: the digest is an arbitrary function that does not collide on the two texts, and the same holds for decision hashes and alert ids; the alert's occurrence revision and the decision fields that only repeat the input are not part of this model.
- Metric history: the credential and egress references in the result, the time window, random observation ids, and the claiming and completing repository.
- HTTP servers, cookies, rendering, SQL migrations, database gateways, provider networking and the workers whose logic lives in stored procedures.
- `control_plane.py`, `machine.py`, `browser.py`, `config.py`, `quarantine.py`, health projection and the collectors: conjunctions of checks or finite tables that would only add easy members.
