/**
 The cross-authority operation ledger as a state machine over values: every public call is one
 function from a ledger to the ledger it leaves and its answer. A call that raises may still
 have let a lease lapse, so errors carry a state too.
 */
module OperationSpec {
  import opened Foundation
  import opened AsyncModel

  datatype OperationAttempt = OperationAttempt(
    operationId: string,
    attemptGeneration: nat,
    executorId: string,
    attemptExpiresAt: int,
    executionAdmission: AsyncExecutionAdmission)

  datatype Evidence = Evidence(
    operationId: string,
    attemptGeneration: nat,
    revision: string,
    resolution: Resolution,
    confirmedOutcome: Option<EffectResultLink>)

  datatype Operation = Operation(
    operationId: string,
    tenantId: Option<string>,
    ownerContract: string,
    state: OperationState,
    attemptGeneration: nat,
    executorId: Option<string>,
    attemptExpiresAt: Option<int>,
    executionAdmission: Option<AsyncExecutionAdmission>,
    outcome: Option<EffectResultLink>,
    ambiguityReason: Option<string>,
    revision: Option<string>,
    resolution: Option<Resolution>)

  type EvidenceKey = (string, string)

  datatype Ledger = Ledger(operations: map<string, Operation>, evidence: map<EvidenceKey, Evidence>)

  const EMPTY := Ledger(map[], map[])

  const LEASE_EXPIRED := "attempt_lease_expired_effect_absence_unproven"

  function NewOperation(operationId: string, tenantId: Option<string>, ownerContract: string): Operation {
    Operation(operationId, tenantId, ownerContract, Prepared, 0, None, None, None, None, None, None, None)
  }

  function Require(l: Ledger, operationId: string): Result<Operation> {
    if !ValidIdentifier(operationId) then Err(ValueError)
    else if operationId !in l.operations then Err(InvalidTransition)
    else Ok(l.operations[operationId])
  }

  function Block(o: Operation, reason: string): Operation {
    o.(state := OperationAmbiguous, executorId := None, attemptExpiresAt := None, executionAdmission := None,
       ambiguityReason := Some(reason), revision := None, resolution := None)
  }

  predicate LeaseOver(o: Operation, now: int) {
    o.state.Attempting? && o.attemptExpiresAt.Some? && o.attemptExpiresAt.value <= now
  }

  function LapseAt(o: Operation, now: int): Operation {
    if LeaseOver(o, now) then Block(o, LEASE_EXPIRED) else o
  }

  function Put(l: Ledger, operationId: string, o: Operation): Ledger {
    l.(operations := l.operations[operationId := o])
  }

  // ----- prepare, begin_attempt, expire_attempt -----

  function Prepare(l: Ledger, operationId: string, ownerContract: string, tenantId: Option<string>)
    : Outcome<Ledger, ()>
  {
    if !ValidIdentifier(operationId) || !ValidIdentifier(ownerContract) || !ValidOptionalIdentifier(tenantId) then
      Outcome(l, Err(ValueError))
    else if operationId in l.operations then
      var existing := l.operations[operationId];
      if existing.ownerContract != ownerContract || existing.tenantId != tenantId then
        Outcome(l, Err(InvalidTransition))
      else
        Outcome(l, Ok(()))
    else
      Outcome(Put(l, operationId, NewOperation(operationId, tenantId, ownerContract)), Ok(()))
  }

  function AttemptRequest(o: Operation, runtimeProfileId: string): AsyncExecutionRequest {
    AsyncExecutionRequest(o.ownerContract, runtimeProfileId, o.tenantId, None, Some(o.operationId))
  }

  /** `authority` is what the execution authority answers when it is asked about the request. */
  function AdmitAttempt(
    o: Operation, authority: Option<AsyncExecutionAdmission>, attemptExpiresAt: int, runtimeProfileId: string)
    : Result<AsyncExecutionAdmission>
  {
    var request := AttemptRequest(o, runtimeProfileId);
    var admission := RequireCurrentExecution(authority, request);
    if o.state.OperationAmbiguous? then Err(ReconciliationBlocked)
    else if !o.state.Prepared? then Err(InvalidTransition)
    else if o.resolution != None && o.resolution != Some(EffectProvenAbsent) then Err(InvalidTransition)
    else if !RequestWellFormed(request) then Err(ValueError)
    else if admission.Err? then Err(ReconciliationBlocked)
    else if attemptExpiresAt <= admission.value.observedAt then Err(ValueError)
    else admission
  }

  function Begin(
    o: Operation, executorId: string, attemptExpiresAt: int, admission: AsyncExecutionAdmission): Operation
  {
    o.(state := Attempting, attemptGeneration := o.attemptGeneration + 1, executorId := Some(executorId),
       attemptExpiresAt := Some(attemptExpiresAt), executionAdmission := Some(admission),
       revision := None, resolution := None)
  }

  function BeginAttempt(
    l: Ledger, operationId: string, executorId: string, authority: Option<AsyncExecutionAdmission>,
    attemptExpiresAt: int, runtimeProfileId: string): Outcome<Ledger, OperationAttempt>
  {
    if !ValidIdentifier(executorId) then Outcome(l, Err(ValueError))
    else if Require(l, operationId).Err? then Outcome(l, Err(Require(l, operationId).error))
    else
      var admission := AdmitAttempt(l.operations[operationId], authority, attemptExpiresAt, runtimeProfileId);
      if admission.Err? then Outcome(l, Err(admission.error))
      else
        var o := Begin(l.operations[operationId], executorId, attemptExpiresAt, admission.value);
        Outcome(Put(l, operationId, o),
                Ok(OperationAttempt(operationId, o.attemptGeneration, executorId, attemptExpiresAt, admission.value)))
  }

  function ExpireAttempt(l: Ledger, operationId: string, now: int): Outcome<Ledger, bool> {
    if Require(l, operationId).Err? then Outcome(l, Err(Require(l, operationId).error))
    else
      var o := l.operations[operationId];
      if LeaseOver(o, now) then Outcome(Put(l, operationId, LapseAt(o, now)), Ok(true))
      else Outcome(l, Ok(false))
  }

  // ----- complete, mark_ambiguous, fail_terminal: the calls made under an attempt -----

  datatype AttemptAction =
    | Complete(outcome: EffectResultLink)
    | MarkAmbiguous(reason: string)
    | FailTerminal(reason: string)

  predicate ActionInputValid(action: AttemptAction) {
    action.Complete? || ValidIdentifier(action.reason)
  }

  predicate HeldBy(o: Operation, a: OperationAttempt) {
    && o.state.Attempting?
    && o.executorId == Some(a.executorId)
    && o.attemptGeneration == a.attemptGeneration
    && o.attemptExpiresAt == Some(a.attemptExpiresAt)
    && o.executionAdmission == Some(a.executionAdmission)
  }

  function Apply(o: Operation, action: AttemptAction): Operation {
    match action
    case Complete(outcome) =>
      o.(state := OperationCompleted, outcome := Some(outcome), executorId := None, attemptExpiresAt := None,
         ambiguityReason := None)
    case MarkAmbiguous(reason) => Block(o, reason)
    case FailTerminal(reason) =>
      o.(state := OperationFailed, executorId := None, attemptExpiresAt := None, executionAdmission := None,
         ambiguityReason := Some(reason))
  }

  function UnderAttempt(l: Ledger, attempt: OperationAttempt, action: AttemptAction, now: int): Outcome<Ledger, ()> {
    var id := attempt.operationId;
    if !ActionInputValid(action) then Outcome(l, Err(ValueError))
    else if Require(l, id).Err? then Outcome(l, Err(Require(l, id).error))
    else
      var o := LapseAt(l.operations[id], now);
      if !HeldBy(o, attempt) then Outcome(Put(l, id, o), Err(InvalidTransition))
      else Outcome(Put(l, id, Apply(o, action)), Ok(()))
  }

  // ----- reconcile -----

  function Reconcile(
    l: Ledger, operationId: string, resolution: Resolution, revision: string,
    confirmedOutcome: Option<EffectResultLink>): Outcome<Ledger, OperationState>
  {
    if !ValidIdentifier(revision) then Outcome(l, Err(ValueError))
    else if Require(l, operationId).Err? then Outcome(l, Err(Require(l, operationId).error))
    else
      var o := l.operations[operationId];
      var record := Evidence(operationId, o.attemptGeneration, revision, resolution, confirmedOutcome);
      var key := (operationId, revision);
      if !o.state.OperationAmbiguous? || o.attemptGeneration < 1 then Outcome(l, Err(InvalidTransition))
      else if resolution.EffectConfirmed? != confirmedOutcome.Some? then Outcome(l, Err(ValueError))
      else if key in l.evidence && l.evidence[key] != record then Outcome(l, Err(InvalidTransition))
      else
        var o' := Resolve(o.(revision := Some(revision), resolution := Some(resolution)), resolution, confirmedOutcome);
        Outcome(Ledger(l.operations[operationId := o'], l.evidence[key := record]), Ok(o'.state))
  }

  function Resolve(o: Operation, resolution: Resolution, confirmedOutcome: Option<EffectResultLink>): Operation {
    match resolution
    case StillUnknown => o
    case EffectConfirmed => o.(state := OperationCompleted, outcome := confirmedOutcome, ambiguityReason := None)
    case EffectProvenAbsent => o.(state := Prepared, outcome := None, ambiguityReason := None)
  }

  // ----- snapshot -----

  function Snapshot(l: Ledger, operationId: string): Result<OperationSnapshot> {
    if Require(l, operationId).Err? then Err(Require(l, operationId).error)
    else
      var o := l.operations[operationId];
      if o.revision.Some? && (o.operationId, o.revision.value) !in l.evidence then Err(InvalidTransition)
      else
        var resolvedGeneration :=
          if o.revision.Some? then Some(l.evidence[(o.operationId, o.revision.value)].attemptGeneration) else None;
        if resolvedGeneration.Some? && resolvedGeneration.value != o.attemptGeneration then Err(InvalidTransition)
        else
          var s := OperationSnapshot(o.operationId, o.state, o.attemptGeneration, Some(o.ownerContract), o.tenantId,
                                     o.outcome, o.resolution, o.revision, resolvedGeneration);
          if SnapshotWellFormed(s) then Ok(s) else Err(ValueError)
  }

  /** The ledger as the port an inbox consults. */
  function Port(l: Ledger): SnapshotPort {
    (operationId: string) =>
      var s := Snapshot(l, operationId);
      if s.Ok? then Some(s.value) else None
  }

  // ----- Runs -----

  datatype Call =
    | CallPrepare(operationId: string, ownerContract: string, tenantId: Option<string>)
    | CallBegin(operationId: string, executorId: string, authority: Option<AsyncExecutionAdmission>,
                attemptExpiresAt: int, runtimeProfileId: string)
    | CallExpire(operationId: string, now: int)
    | CallUnder(attempt: OperationAttempt, action: AttemptAction, now: int)
    | CallReconcile(operationId: string, resolution: Resolution, revision: string,
                    confirmedOutcome: Option<EffectResultLink>)

  datatype Answer = Done | Begun(attempt: OperationAttempt) | Lapsed(lapsed: bool) | Reconciled(state: OperationState)

  function Lift<T>(o: Outcome<Ledger, T>, wrap: T -> Answer): Outcome<Ledger, Answer> {
    Outcome(o.state, if o.answer.Ok? then Ok(wrap(o.answer.value)) else Err(o.answer.error))
  }

  function Step(l: Ledger, c: Call): Outcome<Ledger, Answer> {
    match c
    case CallPrepare(id, owner, tenant) => Lift(Prepare(l, id, owner, tenant), _ => Done)
    case CallBegin(id, executor, authority, expires, profile) =>
      Lift(BeginAttempt(l, id, executor, authority, expires, profile), a => Begun(a))
    case CallExpire(id, now) => Lift(ExpireAttempt(l, id, now), b => Lapsed(b))
    case CallUnder(attempt, action, now) => Lift(UnderAttempt(l, attempt, action, now), _ => Done)
    case CallReconcile(id, resolution, revision, outcome) =>
      Lift(Reconcile(l, id, resolution, revision, outcome), s => Reconciled(s))
  }

  function Run(l: Ledger, calls: seq<Call>): Ledger
    decreases |calls|
  {
    if calls == [] then l else Run(Step(l, calls[0]).state, calls[1..])
  }
}
