/**
 The inbox as the program keeps it: one mutable receipt per key, reached through a dictionary.
 Every method does exactly what the function of the same name says about the values of the receipts.
 */
module InboxLedger {
  import opened Foundation
  import opened AsyncModel
  import S = InboxSpec

  class ReceiptRecord {
    const identity: ScopedMessageIdentity
    const comparisonEvidence: ComparisonEvidence
    var state: S.InboxState
    var executorId: Option<string>
    var executionGeneration: nat
    var claimExpiresAt: Option<int>
    var executionAdmission: Option<AsyncExecutionAdmission>
    var resultLink: Option<EffectResultLink>
    var operationId: Option<string>
    var terminalReason: Option<string>
    var revision: Option<string>

    constructor (identity: ScopedMessageIdentity, evidence: ComparisonEvidence)
      ensures Value() == S.NewReceipt(identity, evidence)
    {
      this.identity, comparisonEvidence := identity, evidence;
      state, executorId, executionGeneration, claimExpiresAt := S.Admitted, None, 0, None;
      executionAdmission, resultLink, operationId, terminalReason, revision := None, None, None, None, None;
    }

    ghost function Value(): S.Receipt
      reads this
    {
      S.Receipt(identity, comparisonEvidence, state, executorId, executionGeneration, claimExpiresAt,
                executionAdmission, resultLink, operationId, terminalReason, revision)
    }

    method Suspend(into: S.InboxState, reason: string)
      modifies this
      ensures Value() == S.Suspend(old(Value()), into, reason)
    {
      state := into;
      executorId, claimExpiresAt, executionAdmission := None, None, None;
      terminalReason := Some(reason);
    }

    method Block(reason: string)
      modifies this
      ensures Value() == S.Block(old(Value()), reason)
    {
      Suspend(S.ReconciliationRequired, reason);
      revision := None;
    }

    method Begin(executor: string, expires: int, admission: AsyncExecutionAdmission)
      modifies this
      ensures Value() == S.Begin(old(Value()), executor, expires, admission)
    {
      state := S.Processing;
      executorId := Some(executor);
      executionGeneration := executionGeneration + 1;
      claimExpiresAt, executionAdmission := Some(expires), Some(admission);
      revision := None;
    }

    method Finish(link: EffectResultLink)
      modifies this
      ensures Value() == S.Finish(old(Value()), link)
    {
      state, resultLink := S.Completed, Some(link);
      executorId, claimExpiresAt, terminalReason := None, None, None;
    }

    method Observe(presented: ScopedMessageIdentity, evidence: ComparisonEvidence) returns (a: S.Admission)
      modifies this
      ensures (Value(), a) == S.Observe(old(Value()), presented, evidence)
    {
      if identity != presented {
        Suspend(S.Quarantined, S.BINDING_CONFLICT);
        return S.IntegrityConflicting;
      }
      var relation := comparisonEvidence.RelationTo(evidence);
      if relation.Mismatch? {
        Suspend(S.Quarantined, S.CONTENT_CONFLICT);
        return S.IntegrityConflicting;
      }
      if relation.Unknown? {
        Suspend(S.ReconciliationRequired, S.EQUIVALENCE_UNKNOWN);
        return S.BlockedByReconciliation;
      }
      if state.Completed? {
        return S.DuplicateCompleted;
      }
      if state.ReconciliationRequired? || state.Quarantined? || state.Failed? {
        return S.BlockedByReconciliation;
      }
      return S.ObserveInProgress;
    }

    method SnapshotFor(operationId: string, port: SnapshotPort) returns (r: Result<OperationSnapshot>)
      ensures r == S.SnapshotFor(Value(), operationId, port)
    {
      var s := port(operationId);
      if s.None? || !SnapshotWellFormed(s.value) {
        return Err(ReconciliationBlocked);
      }
      if s.value.operationId != operationId {
        return Err(ReconciliationBlocked);
      }
      if s.value.ownerContract != Some(identity.consumerContract) {
        return Err(ReconciliationBlocked);
      }
      if s.value.tenantId != identity.tenantId {
        return Err(ReconciliationBlocked);
      }
      return Ok(s.value);
    }

    /** What each call does once its claim has been accepted; nothing is written when it raises. */
    method Act(action: S.ClaimAction, port: SnapshotPort) returns (r: Result<()>)
      modifies this
      ensures var after := S.Apply(old(Value()), action, port);
              if after.Ok? then r == Ok(()) && Value() == after.value
              else r == Err(after.error) && Value() == old(Value())
    {
      match action {
        case CompleteLocal(link) =>
          if operationId.Some? {
            return Err(InvalidTransition);
          }
          Finish(link);
        case CompleteCross(link) =>
          if operationId.None? {
            return Err(ReconciliationBlocked);
          }
          var s := SnapshotFor(operationId.value, port);
          if s.Err? {
            return Err(s.error);
          }
          if !s.value.state.OperationCompleted? || s.value.outcome != Some(link) {
            return Err(ReconciliationBlocked);
          }
          if s.value.resolution.Some? || s.value.revision.Some? {
            return Err(ReconciliationBlocked);
          }
          Finish(link);
        case Bind(operation) =>
          if operationId.Some? && operationId.value != operation {
            return Err(InvalidTransition);
          }
          var s := SnapshotFor(operation, port);
          if s.Err? {
            return Err(s.error);
          }
          operationId := Some(operation);
        case RequireReconciliation(reason) => Block(reason);
        case FailTerminal(reason) => Suspend(S.Failed, reason);
      }
      return Ok(());
    }

    method Readmit(port: SnapshotPort) returns (r: Result<()>)
      modifies this
      ensures var after := S.Readmit(old(Value()), port);
              if after.Ok? then r == Ok(()) && Value() == after.value
              else r == Err(after.error) && Value() == old(Value())
    {
      if !state.ReconciliationRequired? {
        return Err(InvalidTransition);
      }
      if operationId.None? {
        return Err(ReconciliationBlocked);
      }
      var s := SnapshotFor(operationId.value, port);
      if s.Err? {
        return Err(s.error);
      }
      if !s.value.state.Prepared? || s.value.resolution != Some(EffectProvenAbsent) || s.value.revision.None? {
        return Err(ReconciliationBlocked);
      }
      state, terminalReason, revision := S.Admitted, None, s.value.revision;
      return Ok(());
    }

    method Confirm(link: EffectResultLink, authority: Option<SnapshotPort>) returns (r: Result<()>)
      modifies this
      ensures var after := S.Confirm(old(Value()), link, authority);
              if after.Ok? then r == Ok(()) && Value() == after.value
              else r == Err(after.error) && Value() == old(Value())
    {
      if !state.ReconciliationRequired? {
        return Err(InvalidTransition);
      }
      if operationId.None? || authority.None? {
        return Err(ReconciliationBlocked);
      }
      var s := SnapshotFor(operationId.value, authority.value);
      if s.Err? {
        return Err(s.error);
      }
      if || !s.value.state.OperationCompleted?
         || s.value.outcome != Some(link)
         || s.value.resolution != Some(EffectConfirmed)
         || s.value.revision.None?
      {
        return Err(ReconciliationBlocked);
      }
      revision := s.value.revision;
      state, resultLink, terminalReason := S.Completed, Some(link), None;
      return Ok(());
    }
  }

  lemma PutTwice(l: S.Ledger, a: S.Receipt, b: S.Receipt)
    requires a.identity.Key() == b.identity.Key()
    ensures S.Put(S.Put(l, a), b) == S.Put(l, b)
  {
    assert S.Put(S.Put(l, a), b).receipts == S.Put(l, b).receipts;
  }

  class InboxLedger {
    var receipts: map<S.Key, ReceiptRecord>

    /** No two entries share a receipt, and every receipt sits under its own key. */
    ghost predicate Valid()
      reads this
    {
      && (forall i, j | i in receipts && j in receipts && i != j :: receipts[i] != receipts[j])
      && (forall i | i in receipts :: receipts[i].identity.Key() == i)
    }

    ghost function Contents(): S.Ledger
      reads this, receipts.Values
    {
      S.Ledger(map key | key in receipts :: receipts[key].Value())
    }

    constructor ()
      ensures Valid() && Contents() == S.EMPTY && receipts == map[]
    {
      receipts := map[];
    }

    method Admit(identity: ScopedMessageIdentity, evidence: ComparisonEvidence) returns (r: Result<S.Admission>)
      requires Valid()
      modifies this, receipts.Values
      ensures Valid() && fresh(receipts.Values - old(receipts.Values))
      ensures Outcome(Contents(), r) == S.Admit(old(Contents()), identity, evidence)
    {
      var key := identity.Key();
      if key !in receipts {
        Insert(identity, evidence);
        return Ok(S.New);
      }
      var answer := receipts[key].Observe(identity, evidence);
      assert Contents().receipts == old(Contents()).receipts[key := receipts[key].Value()];
      return Ok(answer);
    }

    method Insert(identity: ScopedMessageIdentity, evidence: ComparisonEvidence)
      requires Valid() && identity.Key() !in receipts
      modifies this
      ensures Valid() && fresh(receipts.Values - old(receipts.Values))
      ensures Contents() == S.Ledger(old(Contents()).receipts[identity.Key() := S.NewReceipt(identity, evidence)])
    {
      ghost var before := Contents();
      var receipt := new ReceiptRecord(identity, evidence);
      assert Contents() == before;
      receipts := receipts[identity.Key() := receipt];
      assert Contents().receipts == before.receipts[identity.Key() := receipt.Value()];
    }

    method Require(identity: ScopedMessageIdentity) returns (r: Result<ReceiptRecord>)
      requires Valid()
      ensures var found := S.Require(Contents(), identity);
              if found.Err? then r == Err(found.error)
              else identity.Key() in receipts && r == Ok(receipts[identity.Key()])
                   && r.value.identity == identity && found.value == r.value.Value()
    {
      if identity.Key() !in receipts {
        return Err(InvalidTransition);
      }
      if receipts[identity.Key()].identity != identity {
        return Err(IntegrityConflict);
      }
      return Ok(receipts[identity.Key()]);
    }

    /** Everything that is decided before a claim changes the receipt. */
    method AdmitExecution(
      receipt: ReceiptRecord, authority: AsyncExecutionRequest -> Option<AsyncExecutionAdmission>,
      claimExpiresAt: int, runtimeProfileId: string) returns (r: Result<AsyncExecutionAdmission>)
      ensures r == S.AdmitExecution(receipt.Value(), authority(S.ClaimRequest(receipt.identity, runtimeProfileId)),
                                    claimExpiresAt, runtimeProfileId)
    {
      if !receipt.state.Admitted? {
        if receipt.state.ReconciliationRequired? || receipt.state.Quarantined? {
          return Err(ReconciliationBlocked);
        }
        return Err(InvalidTransition);
      }
      var request := AsyncExecutionRequest(
        receipt.identity.consumerContract, runtimeProfileId, receipt.identity.tenantId, Some(receipt.identity), None);
      if !RequestWellFormed(request) {
        return Err(ValueError);
      }
      var admission := RequireCurrentExecution(authority(request), request);
      if admission.Err? {
        return Err(ReconciliationBlocked);
      }
      if claimExpiresAt <= admission.value.observedAt {
        return Err(ValueError);
      }
      return admission;
    }

    method ClaimEffect(
      identity: ScopedMessageIdentity, executorId: string,
      authority: AsyncExecutionRequest -> Option<AsyncExecutionAdmission>, claimExpiresAt: int,
      runtimeProfileId: string)
      returns (r: Result<S.ExecutorClaim>)
      requires Valid()
      modifies receipts.Values
      ensures Valid()
      ensures Outcome(Contents(), r) ==
              S.ClaimEffect(old(Contents()), identity, executorId,
                            authority(S.ClaimRequest(identity, runtimeProfileId)), claimExpiresAt, runtimeProfileId)
    {
      if !ValidIdentifier(executorId) {
        return Err(ValueError);
      }
      var found := Require(identity);
      if found.Err? {
        return Err(found.error);
      }
      var receipt := found.value;
      var admission := AdmitExecution(receipt, authority, claimExpiresAt, runtimeProfileId);
      if admission.Err? {
        return Err(admission.error);
      }
      var claim := Grant(receipt, executorId, claimExpiresAt, admission.value);
      return Ok(claim);
    }

    /** What an admitted claim writes and hands out. */
    method Grant(receipt: ReceiptRecord, executorId: string, claimExpiresAt: int, admission: AsyncExecutionAdmission)
      returns (claim: S.ExecutorClaim)
      requires Valid() && receipt.identity.Key() in receipts && receipts[receipt.identity.Key()] == receipt
      modifies receipt
      ensures Valid()
      ensures var r := S.Begin(old(receipt.Value()), executorId, claimExpiresAt, admission);
              && Contents() == S.Put(old(Contents()), r)
              && claim ==
                 S.ExecutorClaim(receipt.identity, executorId, r.executionGeneration, claimExpiresAt, admission)
    {
      receipt.Begin(executorId, claimExpiresAt, admission);
      assert Contents().receipts == old(Contents()).receipts[receipt.identity.Key() := receipt.Value()];
      return S.ExecutorClaim(receipt.identity, executorId, receipt.executionGeneration, claimExpiresAt, admission);
    }

    method ExpireProcessingClaim(identity: ScopedMessageIdentity, now: int) returns (r: Result<bool>)
      requires Valid()
      modifies receipts.Values
      ensures Valid()
      ensures Outcome(Contents(), r) == S.ExpireClaim(old(Contents()), identity, now)
    {
      var found := Require(identity);
      if found.Err? {
        return Err(found.error);
      }
      var receipt := found.value;
      if !receipt.state.Processing? {
        return Ok(false);
      }
      if receipt.claimExpiresAt.None? || receipt.claimExpiresAt.value > now {
        return Ok(false);
      }
      receipt.Block(S.LEASE_EXPIRED);
      assert Contents().receipts == old(Contents()).receipts[identity.Key() := receipt.Value()];
      return Ok(true);
    }

    /** The guard of every call made under a claim: it lets an expired lease lapse before it refuses. */
    method RequireCurrentClaim(claim: S.ExecutorClaim, now: int) returns (r: Result<ReceiptRecord>)
      requires Valid()
      modifies receipts.Values
      ensures Valid()
      ensures var found := S.Require(old(Contents()), claim.identity);
              if found.Err? then r == Err(found.error) && Contents() == old(Contents())
              else
                var after := S.LapseAt(found.value, now);
                && Contents() == S.Put(old(Contents()), after)
                && claim.identity.Key() in receipts
                && receipts[claim.identity.Key()].Value() == after
                && r == if S.HeldBy(after, claim) then Ok(receipts[claim.identity.Key()]) else Err(InvalidTransition)
    {
      var found := Require(claim.identity);
      if found.Err? {
        return Err(found.error);
      }
      var receipt := found.value;
      if receipt.state.Processing? && receipt.claimExpiresAt.Some? {
        if receipt.claimExpiresAt.value <= now {
          receipt.Block(S.LEASE_EXPIRED);
        }
      }
      assert Contents().receipts == old(Contents()).receipts[claim.identity.Key() := receipt.Value()];
      if || !receipt.state.Processing?
         || receipt.executorId != Some(claim.executorId)
         || receipt.executionGeneration != claim.executionGeneration
         || receipt.claimExpiresAt != Some(claim.claimExpiresAt)
         || receipt.executionAdmission != Some(claim.executionAdmission)
      {
        return Err(InvalidTransition);
      }
      return Ok(receipt);
    }

    /** The five calls made under a claim differ only in their input check and in what they do to the receipt. */
    method UnderClaim(claim: S.ExecutorClaim, action: S.ClaimAction, now: int, port: SnapshotPort)
      returns (r: Result<()>)
      requires Valid()
      modifies receipts.Values
      ensures Valid()
      ensures Outcome(Contents(), r) == S.UnderClaim(old(Contents()), claim, action, now, port)
    {
      if !S.ActionInputValid(action) {
        return Err(ValueError);
      }
      var current := RequireCurrentClaim(claim, now);
      if current.Err? {
        return Err(current.error);
      }
      ghost var lapsed := current.value.Value();
      r := ActOn(current.value, action, port);
      if r.Ok? {
        PutTwice(old(Contents()), lapsed, S.Apply(lapsed, action, port).value);
      }
    }

    method ActOn(receipt: ReceiptRecord, action: S.ClaimAction, port: SnapshotPort) returns (r: Result<()>)
      requires Valid() && receipt.identity.Key() in receipts && receipts[receipt.identity.Key()] == receipt
      modifies receipt
      ensures Valid()
      ensures var after := S.Apply(old(receipt.Value()), action, port);
              if after.Ok? then
                && r == Ok(())
                && after.value.identity == receipt.identity
                && Contents() == S.Put(old(Contents()), after.value)
              else r == Err(after.error) && Contents() == old(Contents())
    {
      r := receipt.Act(action, port);
      assert Contents().receipts == old(Contents()).receipts[receipt.identity.Key() := receipt.Value()];
      assert r.Err? ==> Contents().receipts == old(Contents()).receipts;
    }

    method ReconcileRetryEligible(identity: ScopedMessageIdentity, port: SnapshotPort) returns (r: Result<()>)
      requires Valid()
      modifies receipts.Values
      ensures Valid()
      ensures Outcome(Contents(), r) == S.ReconcileRetryEligible(old(Contents()), identity, port)
    {
      var found := Require(identity);
      if found.Err? {
        return Err(found.error);
      }
      r := found.value.Readmit(port);
      assert Contents().receipts == old(Contents()).receipts[identity.Key() := found.value.Value()];
      assert r.Err? ==> Contents().receipts == old(Contents()).receipts;
    }

    method ReconcileCompleted(identity: ScopedMessageIdentity, link: EffectResultLink, authority: Option<SnapshotPort>)
      returns (r: Result<()>)
      requires Valid()
      modifies receipts.Values
      ensures Valid()
      ensures Outcome(Contents(), r) == S.ReconcileCompleted(old(Contents()), identity, link, authority)
    {
      var found := Require(identity);
      if found.Err? {
        return Err(found.error);
      }
      r := ConfirmReceipt(found.value, link, authority);
    }

    method ConfirmReceipt(receipt: ReceiptRecord, link: EffectResultLink, authority: Option<SnapshotPort>)
      returns (r: Result<()>)
      requires Valid() && receipt.identity.Key() in receipts && receipts[receipt.identity.Key()] == receipt
      modifies receipt
      ensures Valid()
      ensures var after := S.Confirm(old(receipt.Value()), link, authority);
              if after.Ok? then r == Ok(()) && Contents() == S.Put(old(Contents()), after.value)
              else r == Err(after.error) && Contents() == old(Contents())
    {
      r := receipt.Confirm(link, authority);
      assert Contents().receipts == old(Contents()).receipts[receipt.identity.Key() := receipt.Value()];
      assert r.Err? ==> Contents().receipts == old(Contents()).receipts;
    }
  }
}
