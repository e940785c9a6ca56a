/**
 What every call on the inbox answers and leaves behind, field by field, read off the stored receipt alone; and what
 the answer to a redelivery promises in joint runs with the operation ledger.
 */
module InboxOutcomes {
  import opened Foundation
  import opened AsyncModel
  import opened InboxSpec
  import opened InboxProofs
  import J = JointRuns

  /** The ledger in which only this receipt is different. */
  function With(l: Ledger, r: Receipt): Ledger { Ledger(l.receipts[r.identity.Key() := r]) }

  // ----- admit -----

  /** Two pieces of evidence were made under one profile, version, form and verifier generation. */
  predicate Comparable(a: ComparisonEvidence, b: ComparisonEvidence) {
    && a.profileId == b.profileId && a.profileVersion == b.profileVersion && a.form == b.form
    && a.verifierGeneration == b.verifierGeneration
  }

  predicate SameBinding(l: Ledger, m: ScopedMessageIdentity) {
    m.Key() in l.receipts && l.receipts[m.Key()].identity == m
  }

  predicate SameDelivery(l: Ledger, m: ScopedMessageIdentity, e: ComparisonEvidence) {
    SameBinding(l, m) && l.receipts[m.Key()].comparisonEvidence == e
  }

  /** The same key under another binding, or the same binding with evidence that is comparable and different. */
  predicate Conflicts(l: Ledger, m: ScopedMessageIdentity, e: ComparisonEvidence) {
    && m.Key() in l.receipts
    && var r := l.receipts[m.Key()];
       r.identity != m || (Comparable(r.comparisonEvidence, e) && r.comparisonEvidence.evidence != e.evidence)
  }

  predicate CannotBeCompared(l: Ledger, m: ScopedMessageIdentity, e: ComparisonEvidence) {
    SameBinding(l, m) && !Comparable(l.receipts[m.Key()].comparisonEvidence, e)
  }

  /** Each of the five answers, exactly when it is given. */
  lemma AdmitAnswers(l: Ledger, m: ScopedMessageIdentity, e: ComparisonEvidence)
    ensures var a := Admit(l, m, e).answer;
            && a.Ok?
            && (a.value == New <==> m.Key() !in l.receipts)
            && (a.value == DuplicateCompleted <==>
                  SameDelivery(l, m, e) && l.receipts[m.Key()].state == Completed)
            && (a.value == ObserveInProgress <==>
                  SameDelivery(l, m, e) && l.receipts[m.Key()].state in {Admitted, Processing})
            && (a.value == IntegrityConflicting <==> Conflicts(l, m, e))
            && (a.value == BlockedByReconciliation <==>
                  || CannotBeCompared(l, m, e)
                  || (SameDelivery(l, m, e)
                      && l.receipts[m.Key()].state in {ReconciliationRequired, Quarantined, Failed}))
  {
  }

  /** What an admit writes: a new receipt, a suspension that keeps all history, or nothing. */
  lemma AdmitWrites(l: Ledger, m: ScopedMessageIdentity, e: ComparisonEvidence)
    requires Inv(l)
    ensures var l' := Admit(l, m, e).state;
            if m.Key() !in l.receipts then
              l' == Ledger(l.receipts[m.Key() :=
                             Receipt(m, e, Admitted, None, 0, None, None, None, None, None, None)])
            else
              var r := l.receipts[m.Key()];
              if Conflicts(l, m, e) then
                l' == With(l, Receipt(r.identity, r.comparisonEvidence, Quarantined, None, r.executionGeneration, None,
                                      None, r.resultLink, r.operationId,
                                      Some(if r.identity != m then "same_scoped_identity_conflicting_trusted_binding"
                                           else "same_scoped_identity_conflicting_immutable_content"),
                                      r.revision))
              else if CannotBeCompared(l, m, e) then
                l' == With(l, Receipt(r.identity, r.comparisonEvidence, ReconciliationRequired, None,
                                      r.executionGeneration, None, None, r.resultLink, r.operationId,
                                      Some("message_equivalence_authority_unknown"), r.revision))
              else l' == l
  {
    if m.Key() in l.receipts && !Conflicts(l, m, e) && !CannotBeCompared(l, m, e) {
      assert l.receipts[m.Key() := l.receipts[m.Key()]] == l.receipts;
    }
  }

  /**
   A delivery is answered as a completed duplicate only if the effect has a result, and through an operation only if
   that operation has completed with this very result, whatever calls came before on both ledgers.
   */
  lemma DuplicateMeansResult(calls: seq<J.Call>, m: ScopedMessageIdentity, e: ComparisonEvidence)
    requires Admit(J.Run(J.START, calls).inbox, m, e).answer == Ok(DuplicateCompleted)
    ensures var w := J.Run(J.START, calls);
            && m.Key() in w.inbox.receipts
            && var r := w.inbox.receipts[m.Key()];
               && r.identity == m && r.comparisonEvidence == e && r.resultLink.Some?
               && (r.operationId.Some? ==>
                     && r.operationId.value in w.operations.operations
                     && w.operations.operations[r.operationId.value].state.OperationCompleted?
                     && w.operations.operations[r.operationId.value].outcome == r.resultLink)
  {
    AdmitAnswers(J.Run(J.START, calls).inbox, m, e);
    J.ResultAgreesWithOperation(calls, m.Key());
  }

  // ----- claim_effect, expire_processing_claim -----

  predicate AdmitsClaim(
    m: ScopedMessageIdentity, authority: Option<AsyncExecutionAdmission>, expires: int, profile: string)
  {
    && authority.Some? && AdmissionWellFormed(authority.value)
    && authority.value.request == AsyncExecutionRequest(m.consumerContract, profile, m.tenantId, Some(m), None)
    && authority.value.current
    && authority.value.observedAt < expires
  }

  const PROFILES := ["runtime.api@1", "runtime.worker@1"]

  /** The request of a claim is well formed exactly for a legal contract and tenant and an allowed profile. */
  predicate Requestable(m: ScopedMessageIdentity, profile: string) {
    && ValidContractName(m.consumerContract)
    && (m.tenantId.Some? ==> ValidIdentifier(m.tenantId.value))
    && profile in PROFILES
  }

  lemma ClaimRequestWellFormed(m: ScopedMessageIdentity, profile: string)
    ensures RequestWellFormed(ClaimRequest(m, profile)) <==> Requestable(m, profile)
  {
    assert PROFILES[0] == "runtime.api@1" && PROFILES[1] == "runtime.worker@1";
    assert ValidIdentifier("runtime.api@1") && ValidIdentifier("runtime.worker@1");
  }

  lemma ClaimOutcome(
    l: Ledger, m: ScopedMessageIdentity, executor: string, authority: Option<AsyncExecutionAdmission>, expires: int,
    profile: string)
    ensures var o := ClaimEffect(l, m, executor, authority, expires, profile);
            && (o.answer.Ok? <==>
                  && ValidIdentifier(executor) && SameBinding(l, m) && l.receipts[m.Key()].state == Admitted
                  && Requestable(m, profile)
                  && AdmitsClaim(m, authority, expires, profile))
            && (o.answer.Err? ==> o.state == l)
            && (o.answer.Ok? ==>
                  var r := l.receipts[m.Key()];
                  && o.state == With(l, Receipt(m, r.comparisonEvidence, Processing, Some(executor),
                                                r.executionGeneration + 1, Some(expires), authority, r.resultLink,
                                                r.operationId, r.terminalReason, None))
                  && o.answer.value ==
                     ExecutorClaim(m, executor, r.executionGeneration + 1, expires, authority.value))
  {
    ClaimRequestWellFormed(m, profile);
  }

  /** Which error a refused claim raises. */
  lemma ClaimErrors(
    l: Ledger, m: ScopedMessageIdentity, executor: string, authority: Option<AsyncExecutionAdmission>, expires: int,
    profile: string)
    requires ClaimEffect(l, m, executor, authority, expires, profile).answer.Err?
    ensures ClaimEffect(l, m, executor, authority, expires, profile).answer.error ==
            if !ValidIdentifier(executor) then ValueError
            else if m.Key() !in l.receipts then InvalidTransition
            else if l.receipts[m.Key()].identity != m then IntegrityConflict
            else if l.receipts[m.Key()].state in {ReconciliationRequired, Quarantined} then ReconciliationBlocked
            else if l.receipts[m.Key()].state != Admitted then InvalidTransition
            else if !Requestable(m, profile) then ValueError
            else if authority.Some? && AdmitsClaim(m, authority, authority.value.observedAt + 1, profile)
            then ValueError
            else ReconciliationBlocked
  {
    ClaimRequestWellFormed(m, profile);
  }

  predicate HeldAndOver(r: Receipt, now: int) {
    r.state.Processing? && r.claimExpiresAt.Some? && r.claimExpiresAt.value <= now
  }

  /** What a lapse leaves: blocked for the stated reason, without a holder, with its history. */
  function Lapsed(r: Receipt): Receipt {
    Receipt(r.identity, r.comparisonEvidence, ReconciliationRequired, None, r.executionGeneration, None, None,
            r.resultLink, r.operationId, Some("processing_lease_expired_effect_absence_unproven"), None)
  }

  lemma ExpireOutcome(l: Ledger, m: ScopedMessageIdentity, now: int)
    ensures var o := ExpireClaim(l, m, now);
            && (o.answer.Ok? <==> SameBinding(l, m))
            && (o.answer.Ok? ==> (o.answer.value <==> HeldAndOver(l.receipts[m.Key()], now)))
            && o.state == if o.answer == Ok(true) then With(l, Lapsed(l.receipts[m.Key()])) else l
  {
  }

  // ----- The calls made under a claim -----

  /** This claim is the one its receipt is held by, and its lease is not over. */
  predicate Holds(l: Ledger, c: ExecutorClaim, now: int) {
    && SameBinding(l, c.identity)
    && var r := l.receipts[c.identity.Key()];
       && r.state.Processing?
       && r.executorId == Some(c.executorId) && r.executionGeneration == c.executionGeneration
       && r.claimExpiresAt == Some(c.claimExpiresAt) && now < c.claimExpiresAt
       && r.executionAdmission == Some(c.executionAdmission)
  }

  /** The operation authority shows this operation, well formed and in the receipt's scope. */
  predicate Shows(port: SnapshotPort, m: ScopedMessageIdentity, id: string) {
    && port(id).Some? && SnapshotWellFormed(port(id).value)
    && port(id).value.operationId == id
    && port(id).value.ownerContract == Some(m.consumerContract)
    && port(id).value.tenantId == m.tenantId
  }

  /** A completion that no reconciliation had a part in. */
  predicate ShowsPlainCompletion(port: SnapshotPort, m: ScopedMessageIdentity, id: string, link: EffectResultLink) {
    && Shows(port, m, id)
    && port(id).value.state == OperationCompleted && port(id).value.outcome == Some(link)
    && port(id).value.resolution == None && port(id).value.revision == None
  }

  function Finished(r: Receipt, link: EffectResultLink): Receipt {
    Receipt(r.identity, r.comparisonEvidence, Completed, None, r.executionGeneration, None, r.executionAdmission,
            Some(link), r.operationId, None, r.revision)
  }

  lemma CompleteLocalOutcome(l: Ledger, c: ExecutorClaim, link: EffectResultLink, now: int, port: SnapshotPort)
    requires Holds(l, c, now)
    ensures var r := l.receipts[c.identity.Key()];
            UnderClaim(l, c, CompleteLocal(link), now, port) ==
            if r.operationId == None then Outcome(With(l, Finished(r, link)), Ok(()))
            else Outcome(l, Err(InvalidTransition))
  {
    Rewritten(l, c.identity);
  }

  lemma CompleteCrossOutcome(l: Ledger, c: ExecutorClaim, link: EffectResultLink, now: int, port: SnapshotPort)
    requires Holds(l, c, now)
    ensures var r := l.receipts[c.identity.Key()];
            UnderClaim(l, c, CompleteCross(link), now, port) ==
            if r.operationId.Some? && ShowsPlainCompletion(port, c.identity, r.operationId.value, link) then
              Outcome(With(l, Finished(r, link)), Ok(()))
            else Outcome(l, Err(ReconciliationBlocked))
  {
    Rewritten(l, c.identity);
  }

  lemma BindOutcome(l: Ledger, c: ExecutorClaim, id: string, now: int, port: SnapshotPort)
    requires Holds(l, c, now) && ValidIdentifier(id)
    ensures var r := l.receipts[c.identity.Key()];
            UnderClaim(l, c, Bind(id), now, port) ==
            if r.operationId.Some? && r.operationId.value != id then Outcome(l, Err(InvalidTransition))
            else if !Shows(port, c.identity, id) then Outcome(l, Err(ReconciliationBlocked))
            else
              Outcome(With(l, Receipt(r.identity, r.comparisonEvidence, Processing, r.executorId, r.executionGeneration,
                                      r.claimExpiresAt, r.executionAdmission, r.resultLink, Some(id), r.terminalReason,
                                      r.revision)),
                      Ok(()))
  {
    Rewritten(l, c.identity);
  }

  lemma RequireReconciliationOutcome(l: Ledger, c: ExecutorClaim, reason: string, now: int, port: SnapshotPort)
    requires Holds(l, c, now) && ValidIdentifier(reason)
    ensures var r := l.receipts[c.identity.Key()];
            UnderClaim(l, c, RequireReconciliation(reason), now, port) ==
            Outcome(With(l, Receipt(r.identity, r.comparisonEvidence, ReconciliationRequired, None,
                                    r.executionGeneration, None, None, r.resultLink, r.operationId, Some(reason),
                                    None)),
                    Ok(()))
  {
  }

  lemma FailTerminalOutcome(l: Ledger, c: ExecutorClaim, reason: string, now: int, port: SnapshotPort)
    requires Holds(l, c, now) && ValidIdentifier(reason)
    ensures var r := l.receipts[c.identity.Key()];
            UnderClaim(l, c, FailTerminal(reason), now, port) ==
            Outcome(With(l, Receipt(r.identity, r.comparisonEvidence, Failed, None, r.executionGeneration, None, None,
                                    r.resultLink, r.operationId, Some(reason), r.revision)),
                    Ok(()))
  {
  }

  lemma Rewritten(l: Ledger, m: ScopedMessageIdentity)
    requires SameBinding(l, m)
    ensures With(l, l.receipts[m.Key()]) == l
  {
    assert l.receipts[m.Key() := l.receipts[m.Key()]] == l.receipts;
  }

  predicate InputValid(action: ClaimAction) {
    match action
    case Bind(id) => ValidIdentifier(id)
    case RequireReconciliation(reason) => ValidIdentifier(reason)
    case FailTerminal(reason) => ValidIdentifier(reason)
    case _ => true
  }

  /** Everybody else is refused; the only trace is the lapse of a lease that is over. */
  lemma RefusedUnderClaim(l: Ledger, c: ExecutorClaim, action: ClaimAction, now: int, port: SnapshotPort)
    requires Inv(l) && (!Holds(l, c, now) || !InputValid(action))
    ensures var o := UnderClaim(l, c, action, now, port);
            && o.answer.Err?
            && o.answer.error ==
               (if !InputValid(action) then ValueError
                else if c.identity.Key() in l.receipts && l.receipts[c.identity.Key()].identity != c.identity
                then IntegrityConflict else InvalidTransition)
            && o.state == if InputValid(action) && SameBinding(l, c.identity)
                             && HeldAndOver(l.receipts[c.identity.Key()], now)
                          then With(l, Lapsed(l.receipts[c.identity.Key()])) else l
  {
    if SameBinding(l, c.identity) {
      Rewritten(l, c.identity);
      assert ReceiptSound(l.receipts[c.identity.Key()]);
    }
  }

  // ----- reconcile_retry_eligible, reconcile_completed -----

  predicate ShowsAbsence(port: SnapshotPort, m: ScopedMessageIdentity, id: string) {
    && Shows(port, m, id)
    && port(id).value.state == Prepared && port(id).value.resolution == Some(EffectProvenAbsent)
  }

  predicate ShowsConfirmation(port: SnapshotPort, m: ScopedMessageIdentity, id: string, link: EffectResultLink) {
    && Shows(port, m, id)
    && port(id).value.state == OperationCompleted && port(id).value.outcome == Some(link)
    && port(id).value.resolution == Some(EffectConfirmed)
  }

  lemma RetryOutcome(l: Ledger, m: ScopedMessageIdentity, port: SnapshotPort)
    ensures var o := ReconcileRetryEligible(l, m, port);
            && (o.answer.Ok? <==>
                  && SameBinding(l, m) && l.receipts[m.Key()].state == ReconciliationRequired
                  && l.receipts[m.Key()].operationId.Some?
                  && ShowsAbsence(port, m, l.receipts[m.Key()].operationId.value))
            && (o.answer.Err? ==> o.state == l)
            && (o.answer.Err? && SameBinding(l, m) ==>
                  o.answer.error == if l.receipts[m.Key()].state == ReconciliationRequired then ReconciliationBlocked
                                    else InvalidTransition)
            && (o.answer.Ok? ==>
                  var r := l.receipts[m.Key()];
                  o.state == With(l, Receipt(r.identity, r.comparisonEvidence, Admitted, r.executorId,
                                             r.executionGeneration, r.claimExpiresAt, r.executionAdmission,
                                             r.resultLink, r.operationId, None,
                                             port(r.operationId.value).value.revision)))
  {
  }

  lemma ConfirmOutcome(l: Ledger, m: ScopedMessageIdentity, link: EffectResultLink, authority: Option<SnapshotPort>)
    ensures var o := ReconcileCompleted(l, m, link, authority);
            && (o.answer.Ok? <==>
                  && SameBinding(l, m) && l.receipts[m.Key()].state == ReconciliationRequired
                  && l.receipts[m.Key()].operationId.Some? && authority.Some?
                  && ShowsConfirmation(authority.value, m, l.receipts[m.Key()].operationId.value, link))
            && (o.answer.Err? ==> o.state == l)
            && (o.answer.Err? && SameBinding(l, m) ==>
                  o.answer.error == if l.receipts[m.Key()].state == ReconciliationRequired then ReconciliationBlocked
                                    else InvalidTransition)
            && (o.answer.Ok? ==>
                  var r := l.receipts[m.Key()];
                  o.state == With(l, Receipt(r.identity, r.comparisonEvidence, Completed, r.executorId,
                                             r.executionGeneration, r.claimExpiresAt, r.executionAdmission, Some(link),
                                             r.operationId, None,
                                             authority.value(r.operationId.value).value.revision)))
  {
  }
}
