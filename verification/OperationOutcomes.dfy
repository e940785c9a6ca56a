/**
 What every call on the operation ledger answers and leaves behind, field by field: when it is accepted, which error
 it raises otherwise, and what an accepted completion or failure means for every later run.
 */
module OperationOutcomes {
  import opened Foundation
  import opened AsyncModel
  import opened OperationSpec
  import opened OperationProofs

  // ----- prepare -----

  predicate ScopeValid(id: string, owner: string, tenant: Option<string>) {
    ValidIdentifier(id) && ValidIdentifier(owner) && (tenant.Some? ==> ValidIdentifier(tenant.value))
  }

  lemma PrepareOutcome(l: Ledger, id: string, owner: string, tenant: Option<string>)
    ensures var o := Prepare(l, id, owner, tenant);
            && (o.answer == Err(ValueError) <==> !ScopeValid(id, owner, tenant))
            && (o.answer.Ok? <==>
                  && ScopeValid(id, owner, tenant)
                  && (id in l.operations ==>
                        l.operations[id].ownerContract == owner && l.operations[id].tenantId == tenant))
            && (o.answer.Err? ==> o.answer.error == ValueError || o.answer.error == InvalidTransition)
            && o.state ==
               if o.answer.Ok? && id !in l.operations then
                 Ledger(l.operations[id := Operation(id, tenant, owner, Prepared, 0, None, None, None, None, None, None,
                                                     None)],
                        l.evidence)
               else l
  {
  }

  // ----- begin_attempt -----

  /** The authority answers a current, well-formed admission for this very attempt, made before the lease ends. */
  predicate AdmitsAttempt(o: Operation, authority: Option<AsyncExecutionAdmission>, expires: int, profile: string) {
    && authority.Some? && AdmissionWellFormed(authority.value)
    && authority.value.request == AsyncExecutionRequest(o.ownerContract, profile, o.tenantId, None, Some(o.operationId))
    && authority.value.current
    && authority.value.observedAt < expires
  }

  const PROFILES := ["runtime.api@1", "runtime.worker@1"]

  /** A request of a stored operation is well formed exactly for a dotted owner contract and an allowed profile. */
  lemma AttemptRequestWellFormed(l: Ledger, id: string, profile: string)
    requires Inv(l) && id in l.operations
    ensures RequestWellFormed(AttemptRequest(l.operations[id], profile)) <==>
            ValidContractName(l.operations[id].ownerContract) && profile in PROFILES
  {
    assert WellScoped(l.operations[id], id);
    ProfilesValid();
  }

  lemma ProfilesValid()
    ensures ValidIdentifier("runtime.api@1") && ValidIdentifier("runtime.worker@1")
    ensures forall profile :: profile in PROFILES <==> profile in ALLOWED_RUNTIME_PROFILES
  {
    assert PROFILES[0] == "runtime.api@1" && PROFILES[1] == "runtime.worker@1";
  }

  lemma BeginOutcome(
    l: Ledger, id: string, executor: string, authority: Option<AsyncExecutionAdmission>, expires: int, profile: string)
    requires Inv(l)
    ensures var r := BeginAttempt(l, id, executor, authority, expires, profile);
            && (r.answer.Ok? <==>
                  && ValidIdentifier(executor) && id in l.operations
                  && l.operations[id].state.Prepared?
                  && ValidContractName(l.operations[id].ownerContract) && profile in PROFILES
                  && AdmitsAttempt(l.operations[id], authority, expires, profile))
            && (r.answer.Err? ==> r.state == l)
            && (r.answer.Ok? ==>
                  var o := l.operations[id];
                  && r.state ==
                     Ledger(l.operations[id := Operation(o.operationId, o.tenantId, o.ownerContract, Attempting,
                                                         o.attemptGeneration + 1, Some(executor), Some(expires),
                                                         authority, o.outcome, o.ambiguityReason, None, None)],
                            l.evidence)
                  && r.answer.value ==
                     OperationAttempt(id, o.attemptGeneration + 1, executor, expires, authority.value))
  {
    if id in l.operations {
      assert WellScoped(l.operations[id], id) && PointerSound(l, l.operations[id]);
      AttemptRequestWellFormed(l, id, profile);
    }
  }

  /** Which error a refused attempt raises. */
  lemma BeginErrors(
    l: Ledger, id: string, executor: string, authority: Option<AsyncExecutionAdmission>, expires: int, profile: string)
    requires Inv(l) && BeginAttempt(l, id, executor, authority, expires, profile).answer.Err?
    ensures BeginAttempt(l, id, executor, authority, expires, profile).answer.error ==
            if !ValidIdentifier(executor) || !ValidIdentifier(id) then ValueError
            else if id !in l.operations then InvalidTransition
            else if l.operations[id].state == OperationAmbiguous then ReconciliationBlocked
            else if l.operations[id].state != Prepared then InvalidTransition
            else if !ValidContractName(l.operations[id].ownerContract) || profile !in PROFILES then ValueError
            else if && authority.Some?
                    && AdmitsAttempt(l.operations[id], authority, authority.value.observedAt + 1, profile)
            then ValueError
            else ReconciliationBlocked
  {
    if id in l.operations {
      assert WellScoped(l.operations[id], id) && PointerSound(l, l.operations[id]);
      AttemptRequestWellFormed(l, id, profile);
    }
  }

  // ----- expire_attempt -----

  /** Somebody holds the attempt and its lease is not later than this time. */
  predicate HeldAndOver(o: Operation, now: int) {
    o.state.Attempting? && o.attemptExpiresAt.Some? && o.attemptExpiresAt.value <= now
  }

  /** What a lapse leaves: ambiguous for the stated reason, without a holder and without a resolution. */
  function Lapsed(o: Operation): Operation {
    Operation(o.operationId, o.tenantId, o.ownerContract, OperationAmbiguous, o.attemptGeneration, None, None, None,
              o.outcome, Some("attempt_lease_expired_effect_absence_unproven"), None, None)
  }

  lemma ExpireOutcome(l: Ledger, id: string, now: int)
    requires Inv(l)
    ensures var r := ExpireAttempt(l, id, now);
            && (r.answer.Ok? <==> id in l.operations)
            && (r.answer.Err? ==> r.answer.error == if ValidIdentifier(id) then InvalidTransition else ValueError)
            && (r.answer.Ok? ==> (r.answer.value <==> HeldAndOver(l.operations[id], now)))
            && r.state == if r.answer == Ok(true) then Ledger(l.operations[id := Lapsed(l.operations[id])], l.evidence)
                          else l
  {
    if id in l.operations {
      var o := l.operations[id];
      assert WellScoped(o, id);
    }
  }

  // ----- complete, mark_ambiguous, fail_terminal -----

  /** This attempt is the one its operation is held by, and its lease is not over. */
  predicate Holds(l: Ledger, a: OperationAttempt, now: int) {
    && ValidIdentifier(a.operationId) && a.operationId in l.operations
    && var o := l.operations[a.operationId];
       && o.state.Attempting?
       && o.executorId == Some(a.executorId) && o.attemptGeneration == a.attemptGeneration
       && o.attemptExpiresAt == Some(a.attemptExpiresAt) && now < a.attemptExpiresAt
       && o.executionAdmission == Some(a.executionAdmission)
  }

  /** The ledger in which only this operation is different. */
  function With(l: Ledger, id: string, o: Operation): Ledger { Ledger(l.operations[id := o], l.evidence) }

  lemma CompleteOutcome(l: Ledger, a: OperationAttempt, link: EffectResultLink, now: int)
    requires Holds(l, a, now)
    ensures var o := l.operations[a.operationId];
            UnderAttempt(l, a, Complete(link), now) ==
            Outcome(With(l, a.operationId,
                         Operation(o.operationId, o.tenantId, o.ownerContract, OperationCompleted, o.attemptGeneration,
                                   None, None, o.executionAdmission, Some(link), None, o.revision, o.resolution)),
                    Ok(()))
  {
  }

  lemma MarkAmbiguousOutcome(l: Ledger, a: OperationAttempt, reason: string, now: int)
    requires Holds(l, a, now) && ValidIdentifier(reason)
    ensures var o := l.operations[a.operationId];
            UnderAttempt(l, a, MarkAmbiguous(reason), now) ==
            Outcome(With(l, a.operationId,
                         Operation(o.operationId, o.tenantId, o.ownerContract, OperationAmbiguous, o.attemptGeneration,
                                   None, None, None, o.outcome, Some(reason), None, None)),
                    Ok(()))
  {
  }

  lemma FailTerminalOutcome(l: Ledger, a: OperationAttempt, reason: string, now: int)
    requires Holds(l, a, now) && ValidIdentifier(reason)
    ensures var o := l.operations[a.operationId];
            UnderAttempt(l, a, FailTerminal(reason), now) ==
            Outcome(With(l, a.operationId,
                         Operation(o.operationId, o.tenantId, o.ownerContract, OperationFailed, o.attemptGeneration,
                                   None, None, None, o.outcome, Some(reason), o.revision, o.resolution)),
                    Ok(()))
  {
  }

  /** Everybody else is refused; the only trace is the lapse of a lease that is over. */
  lemma RefusedUnderAttempt(l: Ledger, a: OperationAttempt, action: AttemptAction, now: int)
    requires Inv(l)
    requires !Holds(l, a, now) || (!action.Complete? && !ValidIdentifier(action.reason))
    ensures var r := UnderAttempt(l, a, action, now);
            && r.answer ==
               Err(if (!action.Complete? && !ValidIdentifier(action.reason)) || !ValidIdentifier(a.operationId)
                   then ValueError else InvalidTransition)
            && r.state ==
               if (action.Complete? || ValidIdentifier(action.reason))
                  && a.operationId in l.operations && HeldAndOver(l.operations[a.operationId], now)
               then With(l, a.operationId, Lapsed(l.operations[a.operationId])) else l
  {
    if a.operationId in l.operations {
      var o := l.operations[a.operationId];
      assert WellScoped(o, a.operationId);
      assert With(l, a.operationId, o) == l;
    }
  }

  // ----- reconcile -----

  function Record(l: Ledger, id: string, resolution: Resolution, revision: string, outcome: Option<EffectResultLink>)
    : Evidence
    requires id in l.operations
  {
    Evidence(id, l.operations[id].attemptGeneration, revision, resolution, outcome)
  }

  predicate Reconcilable(
    l: Ledger, id: string, resolution: Resolution, revision: string, outcome: Option<EffectResultLink>)
  {
    && ValidIdentifier(revision) && id in l.operations && l.operations[id].state.OperationAmbiguous?
    && (outcome.Some? <==> resolution == EffectConfirmed)
    && ((id, revision) in l.evidence ==>
          l.evidence[(id, revision)] == Record(l, id, resolution, revision, outcome))
  }

  /** What each answer of the reconciler makes of the ambiguous operation. */
  function Reconciled(o: Operation, resolution: Resolution, revision: string, outcome: Option<EffectResultLink>)
    : Operation
  {
    match resolution
    case StillUnknown =>
      Operation(o.operationId, o.tenantId, o.ownerContract, OperationAmbiguous, o.attemptGeneration, o.executorId,
                o.attemptExpiresAt, o.executionAdmission, o.outcome, o.ambiguityReason, Some(revision),
                Some(StillUnknown))
    case EffectConfirmed =>
      Operation(o.operationId, o.tenantId, o.ownerContract, OperationCompleted, o.attemptGeneration, o.executorId,
                o.attemptExpiresAt, o.executionAdmission, outcome, None, Some(revision), Some(EffectConfirmed))
    case EffectProvenAbsent =>
      Operation(o.operationId, o.tenantId, o.ownerContract, Prepared, o.attemptGeneration, o.executorId,
                o.attemptExpiresAt, o.executionAdmission, None, None, Some(revision), Some(EffectProvenAbsent))
  }

  lemma ReconcileOutcome(
    l: Ledger, id: string, resolution: Resolution, revision: string, outcome: Option<EffectResultLink>)
    requires Inv(l)
    ensures var r := Reconcile(l, id, resolution, revision, outcome);
            && (r.answer.Ok? <==> Reconcilable(l, id, resolution, revision, outcome))
            && (r.answer.Err? ==>
                  && r.state == l
                  && r.answer.error ==
                     if !ValidIdentifier(id) || !ValidIdentifier(revision) then ValueError
                     else if id !in l.operations || l.operations[id].state != OperationAmbiguous then InvalidTransition
                     else if outcome.Some? != (resolution == EffectConfirmed) then ValueError
                     else InvalidTransition)
            && (r.answer.Ok? ==>
                  var o' := Reconciled(l.operations[id], resolution, revision, outcome);
                  && r.answer.value == o'.state
                  && r.state == Ledger(l.operations[id := o'],
                                       l.evidence[(id, revision) := Record(l, id, resolution, revision, outcome)]))
  {
    if id in l.operations {
      assert WellScoped(l.operations[id], id);
    }
  }

  // ----- What an accepted completion or failure means for ever -----

  /** After an accepted completion every later snapshot shows the very result that was given. */
  lemma CompletionIsShownForEver(
    l: Ledger, a: OperationAttempt, link: EffectResultLink, now: int, later: seq<Call>)
    requires Inv(l) && Holds(l, a, now)
    ensures var s := Snapshot(Run(UnderAttempt(l, a, Complete(link), now).state, later), a.operationId);
            && s.Ok? && s.value.state == OperationCompleted && s.value.outcome == Some(link)
            && s.value.attemptGeneration == a.attemptGeneration
  {
    var call := CallUnder(a, Complete(link), now);
    var l' := Step(l, call).state;
    CompleteOutcome(l, a, link, now);
    StepKeepsInv(l, call);
    RunExtends(l', later);
    RunKeepsInv(l', later);
    assert WellScoped(l.operations[a.operationId], a.operationId);
    SnapshotOfSound(Run(l', later), a.operationId);
  }

  /** After an accepted terminal failure no later call ever begins another attempt or reconciles the operation. */
  lemma FailureIsTerminal(
    l: Ledger, a: OperationAttempt, reason: string, now: int, later: seq<Call>, executor: string,
    authority: Option<AsyncExecutionAdmission>, expires: int, profile: string, resolution: Resolution, revision: string,
    outcome: Option<EffectResultLink>)
    requires Inv(l) && Holds(l, a, now) && ValidIdentifier(reason)
    ensures var end := Run(UnderAttempt(l, a, FailTerminal(reason), now).state, later);
            && a.operationId in end.operations && end.operations[a.operationId].state == OperationFailed
            && end.operations[a.operationId].attemptGeneration == a.attemptGeneration
            && end.operations[a.operationId].ambiguityReason == Some(reason)
            && BeginAttempt(end, a.operationId, executor, authority, expires, profile).answer.Err?
            && Reconcile(end, a.operationId, resolution, revision, outcome).answer.Err?
  {
    var call := CallUnder(a, FailTerminal(reason), now);
    var l' := Step(l, call).state;
    FailTerminalOutcome(l, a, reason, now);
    StepKeepsInv(l, call);
    RunExtends(l', later);
  }

  /** After an accepted report of ambiguity the next attempt waits for a reconciliation that proves absence. */
  lemma AmbiguityBlocksAttempts(
    l: Ledger, a: OperationAttempt, reason: string, now: int, executor: string,
    authority: Option<AsyncExecutionAdmission>, expires: int, profile: string, resolution: Resolution, revision: string,
    outcome: Option<EffectResultLink>)
    requires Inv(l) && Holds(l, a, now) && ValidIdentifier(reason)
    ensures var l' := UnderAttempt(l, a, MarkAmbiguous(reason), now).state;
            var r := Reconcile(l', a.operationId, resolution, revision, outcome);
            && BeginAttempt(l', a.operationId, executor, authority, expires, profile).answer.Err?
            && (r.answer.Ok? ==>
                  (r.state.operations[a.operationId].state.Prepared? <==> resolution == EffectProvenAbsent))
  {
    MarkAmbiguousOutcome(l, a, reason, now);
  }
}
