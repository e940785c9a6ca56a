/**
 The operation ledger as the program keeps it: one mutable record per operation, reached through
 a dictionary, and a dictionary of append-only evidence. Every method does exactly what
 the function of the same name says about the values of the records.
 */
module OperationLedger {
  import opened Foundation
  import opened AsyncModel
  import S = OperationSpec

  class OperationRecord {
    const operationId: string
    const tenantId: Option<string>
    const ownerContract: string
    var state: OperationState
    var attemptGeneration: nat
    var executorId: Option<string>
    var attemptExpiresAt: Option<int>
    var executionAdmission: Option<AsyncExecutionAdmission>
    var outcome: Option<EffectResultLink>
    var ambiguityReason: Option<string>
    var revision: Option<string>
    var resolution: Option<Resolution>

    constructor (operationId: string, tenantId: Option<string>, ownerContract: string)
      ensures Value() == S.NewOperation(operationId, tenantId, ownerContract)
    {
      this.operationId, this.tenantId, this.ownerContract := operationId, tenantId, ownerContract;
      state, attemptGeneration, executorId, attemptExpiresAt := Prepared, 0, None, None;
      executionAdmission, outcome, ambiguityReason, revision, resolution := None, None, None, None, None;
    }

    ghost function Value(): S.Operation
      reads this
    {
      S.Operation(operationId, tenantId, ownerContract, state, attemptGeneration, executorId, attemptExpiresAt,
                  executionAdmission, outcome, ambiguityReason, revision, resolution)
    }

    method Block(reason: string)
      modifies this
      ensures Value() == S.Block(old(Value()), reason)
    {
      state := OperationAmbiguous;
      executorId, attemptExpiresAt, executionAdmission := None, None, None;
      ambiguityReason := Some(reason);
      revision, resolution := None, None;
    }

    method Begin(executor: string, expires: int, admission: AsyncExecutionAdmission)
      modifies this
      ensures Value() == S.Begin(old(Value()), executor, expires, admission)
    {
      state := Attempting;
      attemptGeneration := attemptGeneration + 1;
      executorId, attemptExpiresAt, executionAdmission := Some(executor), Some(expires), Some(admission);
      revision, resolution := None, None;
    }

    method Succeed(result: EffectResultLink)
      modifies this
      ensures Value() == S.Apply(old(Value()), S.Complete(result))
    {
      state := OperationCompleted;
      outcome := Some(result);
      executorId, attemptExpiresAt, ambiguityReason := None, None, None;
    }

    method Fail(reason: string)
      modifies this
      ensures Value() == S.Apply(old(Value()), S.FailTerminal(reason))
    {
      state := OperationFailed;
      executorId, attemptExpiresAt, executionAdmission := None, None, None;
      ambiguityReason := Some(reason);
    }

    /** What each call under an attempt does once the attempt has been accepted. */
    method Act(action: S.AttemptAction)
      modifies this
      ensures Value() == S.Apply(old(Value()), action)
    {
      match action {
        case Complete(result) => Succeed(result);
        case MarkAmbiguous(reason) => Block(reason);
        case FailTerminal(reason) => Fail(reason);
      }
    }

    method Resolve(answer: Resolution, under: string, confirmed: Option<EffectResultLink>)
      modifies this
      ensures Value() ==
              S.Resolve(old(Value()).(revision := Some(under), resolution := Some(answer)), answer, confirmed)
    {
      revision, resolution := Some(under), Some(answer);
      match answer {
        case StillUnknown =>
        case EffectConfirmed =>
          state, outcome, ambiguityReason := OperationCompleted, confirmed, None;
        case EffectProvenAbsent =>
          state, outcome, ambiguityReason := Prepared, None, None;
      }
    }
  }

  lemma PutTwice(l: S.Ledger, id: string, a: S.Operation, b: S.Operation)
    ensures S.Put(S.Put(l, id, a), id, b) == S.Put(l, id, b)
  {
    assert S.Put(S.Put(l, id, a), id, b).operations == S.Put(l, id, b).operations;
  }

  class CrossAuthorityOperationLedger {
    var operations: map<string, OperationRecord>
    var evidence: map<S.EvidenceKey, S.Evidence>

    /** No two entries share a record. */
    ghost predicate Valid()
      reads this
    {
      forall i, j | i in operations && j in operations && i != j :: operations[i] != operations[j]
    }

    ghost function Contents(): S.Ledger
      reads this, operations.Values
    {
      S.Ledger(map id | id in operations :: operations[id].Value(), evidence)
    }

    constructor ()
      ensures Valid() && Contents() == S.EMPTY && operations == map[]
    {
      operations, evidence := map[], map[];
    }

    method Prepare(operationId: string, ownerContract: string, tenantId: Option<string>) returns (r: Result<()>)
      requires Valid()
      modifies this
      ensures Valid() && fresh(operations.Values - old(operations.Values))
      ensures Outcome(Contents(), r) == S.Prepare(old(Contents()), operationId, ownerContract, tenantId)
    {
      if !ValidIdentifier(operationId) || !ValidIdentifier(ownerContract) || !ValidOptionalIdentifier(tenantId) {
        return Err(ValueError);
      }
      if operationId in operations {
        var existing := operations[operationId];
        if existing.ownerContract != ownerContract || existing.tenantId != tenantId {
          return Err(InvalidTransition);
        }
        return Ok(());
      }
      var operation := new OperationRecord(operationId, tenantId, ownerContract);
      operations := operations[operationId := operation];
      assert Contents().operations == old(Contents()).operations[operationId := operation.Value()];
      return Ok(());
    }

    method Require(operationId: string) returns (r: Result<OperationRecord>)
      ensures r.Ok? <==> ValidIdentifier(operationId) && operationId in operations
      ensures r.Ok? ==> r.value == operations[operationId]
      ensures r.Err? ==> r.error == if ValidIdentifier(operationId) then InvalidTransition else ValueError
    {
      if !ValidIdentifier(operationId) {
        return Err(ValueError);
      }
      if operationId !in operations {
        return Err(InvalidTransition);
      }
      return Ok(operations[operationId]);
    }

    /** Everything that is decided before an attempt changes the record. */
    method AdmitAttempt(
      operation: OperationRecord, authority: AsyncExecutionRequest -> Option<AsyncExecutionAdmission>,
      attemptExpiresAt: int, runtimeProfileId: string) returns (r: Result<AsyncExecutionAdmission>)
      ensures r == S.AdmitAttempt(operation.Value(), authority(S.AttemptRequest(operation.Value(), runtimeProfileId)),
                                  attemptExpiresAt, runtimeProfileId)
    {
      if operation.state.OperationAmbiguous? {
        return Err(ReconciliationBlocked);
      }
      if !operation.state.Prepared? {
        return Err(InvalidTransition);
      }
      if operation.resolution != None && operation.resolution != Some(EffectProvenAbsent) {
        return Err(InvalidTransition);
      }
      var request := AsyncExecutionRequest(
        operation.ownerContract, runtimeProfileId, operation.tenantId, None, Some(operation.operationId));
      if !RequestWellFormed(request) {
        return Err(ValueError);
      }
      var admission := RequireCurrentExecution(authority(request), request);
      if admission.Err? {
        return Err(ReconciliationBlocked);
      }
      if attemptExpiresAt <= admission.value.observedAt {
        return Err(ValueError);
      }
      return admission;
    }

    method BeginAttempt(
      operationId: string, executorId: string, authority: AsyncExecutionRequest -> Option<AsyncExecutionAdmission>,
      attemptExpiresAt: int, runtimeProfileId: string) returns (r: Result<S.OperationAttempt>)
      requires Valid()
      modifies operations.Values
      ensures Valid()
      ensures operationId in operations ==>
                Outcome(Contents(), r) ==
                S.BeginAttempt(old(Contents()), operationId, executorId,
                               authority(S.AttemptRequest(old(operations[operationId].Value()), runtimeProfileId)),
                               attemptExpiresAt, runtimeProfileId)
      ensures operationId !in operations ==>
                Outcome(Contents(), r) ==
                S.BeginAttempt(old(Contents()), operationId, executorId, None, attemptExpiresAt, runtimeProfileId)
    {
      if !ValidIdentifier(executorId) {
        return Err(ValueError);
      }
      var found := Require(operationId);
      if found.Err? {
        return Err(found.error);
      }
      var operation := found.value;
      var admission := AdmitAttempt(operation, authority, attemptExpiresAt, runtimeProfileId);
      if admission.Err? {
        return Err(admission.error);
      }
      var attempt := Grant(operationId, executorId, attemptExpiresAt, admission.value);
      return Ok(attempt);
    }

    /** What an admitted attempt writes and hands out. */
    method Grant(operationId: string, executorId: string, attemptExpiresAt: int, admission: AsyncExecutionAdmission)
      returns (attempt: S.OperationAttempt)
      requires Valid() && operationId in operations
      modifies operations[operationId]
      ensures Valid()
      ensures var o := S.Begin(old(operations[operationId].Value()), executorId, attemptExpiresAt, admission);
              && Contents() == S.Put(old(Contents()), operationId, o)
              && attempt ==
                 S.OperationAttempt(operationId, o.attemptGeneration, executorId, attemptExpiresAt, admission)
    {
      var operation := operations[operationId];
      operation.Begin(executorId, attemptExpiresAt, admission);
      assert Contents().operations == old(Contents()).operations[operationId := operation.Value()];
      return S.OperationAttempt(operationId, operation.attemptGeneration, executorId, attemptExpiresAt, admission);
    }

    method ExpireAttempt(operationId: string, now: int) returns (r: Result<bool>)
      requires Valid()
      modifies operations.Values
      ensures Valid()
      ensures Outcome(Contents(), r) == S.ExpireAttempt(old(Contents()), operationId, now)
    {
      var found := Require(operationId);
      if found.Err? {
        return Err(found.error);
      }
      var operation := found.value;
      if !operation.state.Attempting? {
        return Ok(false);
      }
      if operation.attemptExpiresAt.None? || operation.attemptExpiresAt.value > now {
        return Ok(false);
      }
      operation.Block(S.LEASE_EXPIRED);
      assert Contents().operations == old(Contents()).operations[operationId := operation.Value()];
      return Ok(true);
    }

    /** The guard of every call made under an attempt: it lets an expired lease lapse before it refuses. */
    method RequireCurrentAttempt(attempt: S.OperationAttempt, now: int) returns (r: Result<OperationRecord>)
      requires Valid()
      modifies operations.Values
      ensures Valid()
      ensures var found := S.Require(old(Contents()), attempt.operationId);
              if found.Err? then r == Err(found.error) && Contents() == old(Contents())
              else
                var o := S.LapseAt(found.value, now);
                && Contents() == S.Put(old(Contents()), attempt.operationId, o)
                && r == if S.HeldBy(o, attempt) then Ok(operations[attempt.operationId]) else Err(InvalidTransition)
    {
      var found := Require(attempt.operationId);
      if found.Err? {
        return Err(found.error);
      }
      var operation := found.value;
      if operation.state.Attempting? && operation.attemptExpiresAt.Some? {
        if operation.attemptExpiresAt.value <= now {
          operation.Block(S.LEASE_EXPIRED);
        }
      }
      assert Contents().operations == old(Contents()).operations[attempt.operationId := operation.Value()];
      if || !operation.state.Attempting?
         || operation.executorId != Some(attempt.executorId)
         || operation.attemptGeneration != attempt.attemptGeneration
         || operation.attemptExpiresAt != Some(attempt.attemptExpiresAt)
         || operation.executionAdmission != Some(attempt.executionAdmission)
      {
        return Err(InvalidTransition);
      }
      return Ok(operation);
    }

    method Perform(operationId: string, action: S.AttemptAction)
      requires Valid() && operationId in operations
      modifies operations[operationId]
      ensures Valid()
      ensures Contents() ==
              S.Put(old(Contents()), operationId, S.Apply(old(operations[operationId].Value()), action))
    {
      var operation := operations[operationId];
      operation.Act(action);
      assert Contents().operations == old(Contents()).operations[operationId := operation.Value()];
    }

    method Complete(attempt: S.OperationAttempt, outcome: EffectResultLink, now: int) returns (r: Result<()>)
      requires Valid()
      modifies operations.Values
      ensures Valid()
      ensures Outcome(Contents(), r) == S.UnderAttempt(old(Contents()), attempt, S.Complete(outcome), now)
    {
      var current := RequireCurrentAttempt(attempt, now);
      if current.Err? {
        return Err(current.error);
      }
      ghost var held := current.value.Value();
      Perform(attempt.operationId, S.Complete(outcome));
      PutTwice(old(Contents()), attempt.operationId, held, S.Apply(held, S.Complete(outcome)));
      return Ok(());
    }

    method MarkAmbiguous(attempt: S.OperationAttempt, reason: string, now: int) returns (r: Result<()>)
      requires Valid()
      modifies operations.Values
      ensures Valid()
      ensures Outcome(Contents(), r) == S.UnderAttempt(old(Contents()), attempt, S.MarkAmbiguous(reason), now)
    {
      if !ValidIdentifier(reason) {
        return Err(ValueError);
      }
      var current := RequireCurrentAttempt(attempt, now);
      if current.Err? {
        return Err(current.error);
      }
      ghost var held := current.value.Value();
      Perform(attempt.operationId, S.MarkAmbiguous(reason));
      PutTwice(old(Contents()), attempt.operationId, held, S.Apply(held, S.MarkAmbiguous(reason)));
      return Ok(());
    }

    method FailTerminal(attempt: S.OperationAttempt, reason: string, now: int) returns (r: Result<()>)
      requires Valid()
      modifies operations.Values
      ensures Valid()
      ensures Outcome(Contents(), r) == S.UnderAttempt(old(Contents()), attempt, S.FailTerminal(reason), now)
    {
      if !ValidIdentifier(reason) {
        return Err(ValueError);
      }
      var current := RequireCurrentAttempt(attempt, now);
      if current.Err? {
        return Err(current.error);
      }
      ghost var held := current.value.Value();
      Perform(attempt.operationId, S.FailTerminal(reason));
      PutTwice(old(Contents()), attempt.operationId, held, S.Apply(held, S.FailTerminal(reason)));
      return Ok(());
    }

    method Reconcile(
      operationId: string, resolution: Resolution, revision: string, confirmedOutcome: Option<EffectResultLink>)
      returns (r: Result<OperationState>)
      requires Valid()
      modifies this`evidence, operations.Values
      ensures Valid()
      ensures Outcome(Contents(), r) ==
              S.Reconcile(old(Contents()), operationId, resolution, revision, confirmedOutcome)
    {
      if !ValidIdentifier(operationId) || !ValidIdentifier(revision) {
        return Err(ValueError);
      }
      var found := Require(operationId);
      if found.Err? {
        return Err(found.error);
      }
      var operation := found.value;
      if !operation.state.OperationAmbiguous? {
        return Err(InvalidTransition);
      }
      if operation.attemptGeneration < 1 {
        return Err(InvalidTransition);
      }
      if resolution.EffectConfirmed? != confirmedOutcome.Some? {
        return Err(ValueError);
      }
      var record := S.Evidence(operationId, operation.attemptGeneration, revision, resolution, confirmedOutcome);
      var key := (operationId, revision);
      if key in evidence && evidence[key] != record {
        return Err(InvalidTransition);
      }
      var state := Settle(record);
      return Ok(state);
    }

    /** Stores the record, moves the operation's pointer to it and resolves the state. */
    method Settle(record: S.Evidence) returns (state: OperationState)
      requires Valid() && record.operationId in operations
      modifies this`evidence, operations[record.operationId]
      ensures Valid()
      ensures var o := old(operations[record.operationId].Value());
              var o' := S.Resolve(o.(revision := Some(record.revision), resolution := Some(record.resolution)),
                                  record.resolution, record.confirmedOutcome);
              && state == o'.state
              && Contents() == S.Ledger(old(Contents()).operations[record.operationId := o'],
                                        old(Contents()).evidence[(record.operationId, record.revision) := record])
    {
      var operation := operations[record.operationId];
      evidence := evidence[(record.operationId, record.revision) := record];
      operation.Resolve(record.resolution, record.revision, record.confirmedOutcome);
      assert Contents().operations == old(Contents()).operations[record.operationId := operation.Value()];
      return operation.state;
    }

    method Snapshot(operationId: string) returns (r: Result<OperationSnapshot>)
      requires Valid()
      ensures r == S.Snapshot(Contents(), operationId)
    {
      var found := Require(operationId);
      if found.Err? {
        return Err(found.error);
      }
      var o := found.value;
      var resolvedGeneration: Option<nat> := None;
      if o.revision.Some? {
        if (o.operationId, o.revision.value) !in evidence {
          return Err(InvalidTransition);
        }
        resolvedGeneration := Some(evidence[(o.operationId, o.revision.value)].attemptGeneration);
        if resolvedGeneration.value != o.attemptGeneration {
          return Err(InvalidTransition);
        }
      }
      var s := OperationSnapshot(o.operationId, o.state, o.attemptGeneration, Some(o.ownerContract), o.tenantId,
                                 o.outcome, o.resolution, o.revision, resolvedGeneration);
      if !SnapshotWellFormed(s) {
        return Err(ValueError);
      }
      return Ok(s);
    }
  }
}
