/**
 The create-or-observe inbox as a state machine over values. Receipts are found by a three-part
 key, but every authority-bearing call compares the whole trusted identity, tenant included.
 */
module InboxSpec {
  import opened Foundation
  import opened AsyncModel

  datatype InboxState =
    | Admitted
    | Processing
    | Completed
    | Failed
    | ReconciliationRequired
    | Quarantined

  datatype Admission = New | DuplicateCompleted | ObserveInProgress | BlockedByReconciliation | IntegrityConflicting

  datatype ExecutorClaim = ExecutorClaim(
    identity: ScopedMessageIdentity,
    executorId: string,
    executionGeneration: nat,
    claimExpiresAt: int,
    executionAdmission: AsyncExecutionAdmission)

  datatype Receipt = Receipt(
    identity: ScopedMessageIdentity,
    comparisonEvidence: ComparisonEvidence,
    state: InboxState,
    executorId: Option<string>,
    executionGeneration: nat,
    claimExpiresAt: Option<int>,
    executionAdmission: Option<AsyncExecutionAdmission>,
    resultLink: Option<EffectResultLink>,
    operationId: Option<string>,
    terminalReason: Option<string>,
    revision: Option<string>)

  type Key = (string, string, string)

  datatype Ledger = Ledger(receipts: map<Key, Receipt>)

  const EMPTY := Ledger(map[])

  const BINDING_CONFLICT := "same_scoped_identity_conflicting_trusted_binding"
  const CONTENT_CONFLICT := "same_scoped_identity_conflicting_immutable_content"
  const EQUIVALENCE_UNKNOWN := "message_equivalence_authority_unknown"
  const LEASE_EXPIRED := "processing_lease_expired_effect_absence_unproven"

  function NewReceipt(identity: ScopedMessageIdentity, evidence: ComparisonEvidence): Receipt {
    Receipt(identity, evidence, Admitted, None, 0, None, None, None, None, None, None)
  }

  function Put(l: Ledger, r: Receipt): Ledger {
    Ledger(l.receipts[r.identity.Key() := r])
  }

  /** Take the receipt out of execution: no executor, no lease, no admission. */
  function Suspend(r: Receipt, state: InboxState, reason: string): Receipt {
    r.(state := state, executorId := None, claimExpiresAt := None, executionAdmission := None,
       terminalReason := Some(reason))
  }

  function Block(r: Receipt, reason: string): Receipt {
    Suspend(r, ReconciliationRequired, reason).(revision := None)
  }

  // ----- admit -----

  function Observe(r: Receipt, identity: ScopedMessageIdentity, evidence: ComparisonEvidence): (Receipt, Admission) {
    if r.identity != identity then (Suspend(r, Quarantined, BINDING_CONFLICT), IntegrityConflicting)
    else
      match r.comparisonEvidence.RelationTo(evidence)
      case Mismatch => (Suspend(r, Quarantined, CONTENT_CONFLICT), IntegrityConflicting)
      case Unknown => (Suspend(r, ReconciliationRequired, EQUIVALENCE_UNKNOWN), BlockedByReconciliation)
      case Equivalent =>
        (r,
         if r.state.Completed? then DuplicateCompleted
         else if r.state.ReconciliationRequired? || r.state.Quarantined? || r.state.Failed? then BlockedByReconciliation
         else ObserveInProgress)
  }

  function Admit(l: Ledger, identity: ScopedMessageIdentity, evidence: ComparisonEvidence): Outcome<Ledger, Admission> {
    var key := identity.Key();
    if key !in l.receipts then Outcome(Ledger(l.receipts[key := NewReceipt(identity, evidence)]), Ok(New))
    else
      var (r, answer) := Observe(l.receipts[key], identity, evidence);
      Outcome(Ledger(l.receipts[key := r]), Ok(answer))
  }

  // ----- claim_effect, expire_processing_claim -----

  function Require(l: Ledger, identity: ScopedMessageIdentity): Result<Receipt> {
    if identity.Key() !in l.receipts then Err(InvalidTransition)
    else if l.receipts[identity.Key()].identity != identity then Err(IntegrityConflict)
    else Ok(l.receipts[identity.Key()])
  }

  function ClaimRequest(identity: ScopedMessageIdentity, runtimeProfileId: string): AsyncExecutionRequest {
    AsyncExecutionRequest(identity.consumerContract, runtimeProfileId, identity.tenantId, Some(identity), None)
  }

  function AdmitExecution(
    r: Receipt, authority: Option<AsyncExecutionAdmission>, claimExpiresAt: int, runtimeProfileId: string)
    : Result<AsyncExecutionAdmission>
  {
    var request := ClaimRequest(r.identity, runtimeProfileId);
    var admission := RequireCurrentExecution(authority, request);
    if r.state.ReconciliationRequired? || r.state.Quarantined? then Err(ReconciliationBlocked)
    else if !r.state.Admitted? then Err(InvalidTransition)
    else if !RequestWellFormed(request) then Err(ValueError)
    else if admission.Err? then Err(ReconciliationBlocked)
    else if claimExpiresAt <= admission.value.observedAt then Err(ValueError)
    else admission
  }

  function Begin(r: Receipt, executorId: string, claimExpiresAt: int, admission: AsyncExecutionAdmission): Receipt {
    r.(state := Processing, executorId := Some(executorId), executionGeneration := r.executionGeneration + 1,
       claimExpiresAt := Some(claimExpiresAt), executionAdmission := Some(admission), revision := None)
  }

  function ClaimEffect(
    l: Ledger, identity: ScopedMessageIdentity, executorId: string, authority: Option<AsyncExecutionAdmission>,
    claimExpiresAt: int, runtimeProfileId: string): Outcome<Ledger, ExecutorClaim>
  {
    var found := Require(l, identity);
    if !ValidIdentifier(executorId) then Outcome(l, Err(ValueError))
    else if found.Err? then Outcome(l, Err(found.error))
    else
      var admission := AdmitExecution(found.value, authority, claimExpiresAt, runtimeProfileId);
      if admission.Err? then Outcome(l, Err(admission.error))
      else
        var r := Begin(found.value, executorId, claimExpiresAt, admission.value);
        Outcome(Put(l, r),
                Ok(ExecutorClaim(identity, executorId, r.executionGeneration, claimExpiresAt, admission.value)))
  }

  predicate LeaseOver(r: Receipt, now: int) {
    r.state.Processing? && r.claimExpiresAt.Some? && r.claimExpiresAt.value <= now
  }

  function LapseAt(r: Receipt, now: int): Receipt {
    if LeaseOver(r, now) then Block(r, LEASE_EXPIRED) else r
  }

  function ExpireClaim(l: Ledger, identity: ScopedMessageIdentity, now: int): Outcome<Ledger, bool> {
    var found := Require(l, identity);
    if found.Err? then Outcome(l, Err(found.error))
    else if LeaseOver(found.value, now) then Outcome(Put(l, LapseAt(found.value, now)), Ok(true))
    else Outcome(l, Ok(false))
  }

  // ----- The calls made under a claim -----

  datatype ClaimAction =
    | CompleteLocal(link: EffectResultLink)
    | CompleteCross(link: EffectResultLink)
    | Bind(operationId: string)
    | RequireReconciliation(reason: string)
    | FailTerminal(reason: string)

  predicate ActionInputValid(action: ClaimAction) {
    match action
    case Bind(operationId) => ValidIdentifier(operationId)
    case RequireReconciliation(reason) => ValidIdentifier(reason)
    case FailTerminal(reason) => ValidIdentifier(reason)
    case _ => true
  }

  predicate HeldBy(r: Receipt, c: ExecutorClaim) {
    && r.state.Processing?
    && r.executorId == Some(c.executorId)
    && r.executionGeneration == c.executionGeneration
    && r.claimExpiresAt == Some(c.claimExpiresAt)
    && r.executionAdmission == Some(c.executionAdmission)
  }

  /** One coherent observation of the operation, which must be in the receipt's own scope. */
  function SnapshotFor(r: Receipt, operationId: string, port: SnapshotPort): Result<OperationSnapshot> {
    var s := port(operationId);
    if s.None? || !SnapshotWellFormed(s.value) then Err(ReconciliationBlocked)
    else if s.value.operationId != operationId then Err(ReconciliationBlocked)
    else if s.value.ownerContract != Some(r.identity.consumerContract) then Err(ReconciliationBlocked)
    else if s.value.tenantId != r.identity.tenantId then Err(ReconciliationBlocked)
    else Ok(s.value)
  }

  function Finish(r: Receipt, link: EffectResultLink): Receipt {
    r.(state := Completed, resultLink := Some(link), executorId := None, claimExpiresAt := None, terminalReason := None)
  }

  function Apply(r: Receipt, action: ClaimAction, port: SnapshotPort): Result<Receipt> {
    match action
    case CompleteLocal(link) => if r.operationId.Some? then Err(InvalidTransition) else Ok(Finish(r, link))
    case CompleteCross(link) =>
      if r.operationId.None? then Err(ReconciliationBlocked)
      else
        var s := SnapshotFor(r, r.operationId.value, port);
        if s.Err? then Err(s.error)
        else if !s.value.state.OperationCompleted? || s.value.outcome != Some(link) then Err(ReconciliationBlocked)
        else if s.value.resolution.Some? || s.value.revision.Some? then Err(ReconciliationBlocked)
        else Ok(Finish(r, link))
    case Bind(operationId) =>
      if r.operationId.Some? && r.operationId.value != operationId then Err(InvalidTransition)
      else
        var s := SnapshotFor(r, operationId, port);
        if s.Err? then Err(s.error) else Ok(r.(operationId := Some(operationId)))
    case RequireReconciliation(reason) => Ok(Block(r, reason))
    case FailTerminal(reason) => Ok(Suspend(r, Failed, reason))
  }

  function UnderClaim(l: Ledger, claim: ExecutorClaim, action: ClaimAction, now: int, port: SnapshotPort)
    : Outcome<Ledger, ()>
  {
    var found := Require(l, claim.identity);
    if !ActionInputValid(action) then Outcome(l, Err(ValueError))
    else if found.Err? then Outcome(l, Err(found.error))
    else
      var r := LapseAt(found.value, now);
      if !HeldBy(r, claim) then Outcome(Put(l, r), Err(InvalidTransition))
      else
        var r' := Apply(r, action, port);
        if r'.Err? then Outcome(Put(l, r), Err(r'.error)) else Outcome(Put(l, r'.value), Ok(()))
  }

  // ----- reconcile_retry_eligible, reconcile_completed -----

  function Readmit(r: Receipt, port: SnapshotPort): Result<Receipt> {
    if !r.state.ReconciliationRequired? then Err(InvalidTransition)
    else if r.operationId.None? then Err(ReconciliationBlocked)
    else
      var s := SnapshotFor(r, r.operationId.value, port);
      if s.Err? then Err(s.error)
      else if !s.value.state.Prepared? || s.value.resolution != Some(EffectProvenAbsent) || s.value.revision.None? then
        Err(ReconciliationBlocked)
      else Ok(r.(state := Admitted, terminalReason := None, revision := s.value.revision))
  }

  function Confirm(r: Receipt, link: EffectResultLink, authority: Option<SnapshotPort>): Result<Receipt> {
    if !r.state.ReconciliationRequired? then Err(InvalidTransition)
    else if r.operationId.None? || authority.None? then Err(ReconciliationBlocked)
    else
      var s := SnapshotFor(r, r.operationId.value, authority.value);
      if s.Err? then Err(s.error)
      else if || !s.value.state.OperationCompleted?
              || s.value.outcome != Some(link)
              || s.value.resolution != Some(EffectConfirmed)
              || s.value.revision.None?
      then Err(ReconciliationBlocked)
      else Ok(r.(state := Completed, resultLink := Some(link), terminalReason := None, revision := s.value.revision))
  }

  function Reconciled(l: Ledger, found: Result<Receipt>, r: Result<Receipt>): Outcome<Ledger, ()> {
    if found.Err? then Outcome(l, Err(found.error))
    else if r.Err? then Outcome(l, Err(r.error))
    else Outcome(Put(l, r.value), Ok(()))
  }

  function ReconcileRetryEligible(l: Ledger, identity: ScopedMessageIdentity, port: SnapshotPort): Outcome<Ledger, ()> {
    var found := Require(l, identity);
    Reconciled(l, found, if found.Ok? then Readmit(found.value, port) else found)
  }

  function ReconcileCompleted(
    l: Ledger, identity: ScopedMessageIdentity, link: EffectResultLink, authority: Option<SnapshotPort>)
    : Outcome<Ledger, ()>
  {
    var found := Require(l, identity);
    Reconciled(l, found, if found.Ok? then Confirm(found.value, link, authority) else found)
  }

  // ----- Calls -----

  datatype Call =
    | CallAdmit(identity: ScopedMessageIdentity, evidence: ComparisonEvidence)
    | CallClaim(identity: ScopedMessageIdentity, executorId: string, authority: Option<AsyncExecutionAdmission>,
                claimExpiresAt: int, runtimeProfileId: string)
    | CallExpire(identity: ScopedMessageIdentity, now: int)
    | CallUnder(claim: ExecutorClaim, action: ClaimAction, now: int)
    | CallRetry(identity: ScopedMessageIdentity)
    | CallConfirm(identity: ScopedMessageIdentity, link: EffectResultLink, authorityGiven: bool)

  datatype Answer = Done | AdmissionIs(admission: Admission) | Claimed(claim: ExecutorClaim) | Lapsed(lapsed: bool)

  function Lift<T>(o: Outcome<Ledger, T>, wrap: T -> Answer): Outcome<Ledger, Answer> {
    Outcome(o.state, if o.answer.Ok? then Ok(wrap(o.answer.value)) else Err(o.answer.error))
  }

  /** `port` is the operation authority that the call is given, if it takes one. */
  function Step(l: Ledger, c: Call, port: SnapshotPort): Outcome<Ledger, Answer> {
    match c
    case CallAdmit(identity, evidence) => Lift(Admit(l, identity, evidence), a => AdmissionIs(a))
    case CallClaim(identity, executor, authority, expires, profile) =>
      Lift(ClaimEffect(l, identity, executor, authority, expires, profile), x => Claimed(x))
    case CallExpire(identity, now) => Lift(ExpireClaim(l, identity, now), b => Lapsed(b))
    case CallUnder(claim, action, now) => Lift(UnderClaim(l, claim, action, now, port), _ => Done)
    case CallRetry(identity) => Lift(ReconcileRetryEligible(l, identity, port), _ => Done)
    case CallConfirm(identity, link, given) =>
      Lift(ReconcileCompleted(l, identity, link, if given then Some(port) else None), _ => Done)
  }
}
