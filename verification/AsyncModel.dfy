/**
 The immutable values that the three ledgers exchange, and the check that binds a current
 execution admission to one exact request.
 */
module AsyncModel {
  import opened Foundation

  // ----- Comparison evidence -----

  datatype Equivalence = Equivalent | Mismatch | Unknown

  datatype ComparisonEvidence = ComparisonEvidence(
    profileId: string,
    profileVersion: string,
    form: string,
    evidence: seq<bv8>,
    verifierGeneration: Option<string>)
  {
    function RelationTo(other: ComparisonEvidence): Equivalence {
      if || profileId != other.profileId
         || profileVersion != other.profileVersion
         || form != other.form
         || verifierGeneration != other.verifierGeneration
      then Unknown
      else if evidence == other.evidence then Equivalent
      else Mismatch
    }
  }

  /** What the constructor accepts. */
  predicate EvidenceWellFormed(e: ComparisonEvidence) {
    && ValidIdentifier(e.profileId) && ValidIdentifier(e.profileVersion) && ValidIdentifier(e.form)
    && ValidOptionalIdentifier(e.verifierGeneration)
    && e.evidence != []
  }

  // ----- Message identity and results -----

  datatype ScopedMessageIdentity = ScopedMessageIdentity(
    consumerContract: string,
    messageIdentityScope: string,
    messageId: string,
    tenantId: Option<string>)
  {
    /** The lookup key leaves the tenant out: two identities may share it. */
    function Key(): (string, string, string) {
      (consumerContract, messageIdentityScope, messageId)
    }
  }

  predicate IdentityWellFormed(m: ScopedMessageIdentity) {
    && ValidContractName(m.consumerContract)
    && ValidIdentifier(m.messageIdentityScope) && ValidIdentifier(m.messageId)
    && ValidOptionalIdentifier(m.tenantId)
  }

  datatype EffectResultLink = EffectResultLink(resultId: string, resultKind: string)

  predicate ResultWellFormed(link: EffectResultLink) {
    ValidIdentifier(link.resultId) && ValidIdentifier(link.resultKind)
  }

  // ----- Execution admission -----

  datatype EnvironmentClass = Development | Validation | Production | Recovery

  datatype AsyncExecutionRequest = AsyncExecutionRequest(
    authorityContract: string,
    runtimeProfileId: string,
    tenantId: Option<string>,
    messageIdentity: Option<ScopedMessageIdentity>,
    operationId: Option<string>)

  const ALLOWED_RUNTIME_PROFILES := {"runtime.api@1", "runtime.worker@1"}

  predicate RequestWellFormed(q: AsyncExecutionRequest) {
    && ValidContractName(q.authorityContract)
    && ValidIdentifier(q.runtimeProfileId)
    && q.runtimeProfileId in ALLOWED_RUNTIME_PROFILES
    && ValidOptionalIdentifier(q.tenantId)
    && ValidOptionalIdentifier(q.operationId)
    && q.messageIdentity.Some? != q.operationId.Some?
    && (q.messageIdentity.Some? ==>
          && q.authorityContract == q.messageIdentity.value.consumerContract
          && q.tenantId == q.messageIdentity.value.tenantId)
  }

  /** The part of a trusted tenant context that an admission is compared with. */
  datatype TenantContext = TenantContext(
    tenantId: string,
    principalId: string,
    principalCredentialGeneration: string,
    runtimeProfileId: string,
    runtimeGeneration: string,
    environmentClass: EnvironmentClass)

  datatype AsyncExecutionAdmission = AsyncExecutionAdmission(
    request: AsyncExecutionRequest,
    principalId: string,
    principalCredentialGeneration: string,
    authorizationRevision: string,
    admissionRevision: string,
    runtimeGeneration: string,
    environmentClass: EnvironmentClass,
    observedAt: int,
    current: bool,
    tenantContext: Option<TenantContext>)

  predicate AdmissionWellFormed(a: AsyncExecutionAdmission) {
    && ValidIdentifier(a.principalId)
    && ValidIdentifier(a.principalCredentialGeneration)
    && ValidIdentifier(a.authorizationRevision)
    && ValidIdentifier(a.admissionRevision)
    && ValidIdentifier(a.runtimeGeneration)
    && (a.request.tenantId.None? ==> a.tenantContext.None?)
    && (a.request.tenantId.Some? ==>
          && a.tenantContext.Some?
          && var context := a.tenantContext.value;
             && context.tenantId == a.request.tenantId.value
             && context.principalId == a.principalId
             && context.principalCredentialGeneration == a.principalCredentialGeneration
             && context.runtimeProfileId == a.request.runtimeProfileId
             && context.runtimeGeneration == a.runtimeGeneration
             && context.environmentClass == a.environmentClass)
  }

  /**
   The authority is an arbitrary oracle: `None` stands for a missing authority, an exception or
   a malformed answer, and a badly built admission is an exception of its constructor.
   */
  function RequireCurrentExecution(answer: Option<AsyncExecutionAdmission>, request: AsyncExecutionRequest)
    : (r: Result<AsyncExecutionAdmission>)
    ensures r.Ok? <==>
              && answer.Some? && AdmissionWellFormed(answer.value)
              && answer.value.request == request && answer.value.current
    ensures r.Ok? ==>
              && r.value == answer.value
              && (request.tenantId.Some? ==>
                    r.value.tenantContext.Some? && r.value.tenantContext.value.tenantId == request.tenantId.value)
    ensures r.Err? ==> r.error == ValueError
  {
    if answer.None? || !AdmissionWellFormed(answer.value) then Err(ValueError)
    else if answer.value.request != request then Err(ValueError)
    else if !answer.value.current then Err(ValueError)
    else Ok(answer.value)
  }

  // ----- Cross-authority operations -----

  datatype OperationState = Prepared | Attempting | OperationCompleted | OperationAmbiguous | OperationFailed

  datatype Resolution = EffectConfirmed | EffectProvenAbsent | StillUnknown

  datatype OperationSnapshot = OperationSnapshot(
    operationId: string,
    state: OperationState,
    attemptGeneration: nat,
    ownerContract: Option<string>,
    tenantId: Option<string>,
    outcome: Option<EffectResultLink>,
    resolution: Option<Resolution>,
    revision: Option<string>,
    resolvedGeneration: Option<nat>)

  /** Every rule the snapshot constructor enforces. */
  predicate SnapshotWellFormed(s: OperationSnapshot) {
    && ValidIdentifier(s.operationId)
    && ValidOptionalIdentifier(s.ownerContract)
    && ValidOptionalIdentifier(s.tenantId)
    && ValidOptionalIdentifier(s.revision)
    && (s.resolvedGeneration.Some? ==> s.resolvedGeneration.value >= 1)
    && s.resolution.Some? == s.revision.Some? == s.resolvedGeneration.Some?
    && (s.resolvedGeneration.Some? ==> s.resolvedGeneration.value == s.attemptGeneration)
    && (s.state.OperationCompleted? <==> s.outcome.Some?)
    && (s.resolution == Some(EffectConfirmed) ==> s.state.OperationCompleted?)
    && (s.resolution == Some(EffectProvenAbsent) ==> s.state.Prepared?)
    && (s.resolution == Some(StillUnknown) ==> s.state.OperationAmbiguous?)
  }

  /** What an inbox sees of an operation ledger; `None` covers every exception and every non-snapshot. */
  type SnapshotPort = string -> Option<OperationSnapshot>

  // ----- The shapes that the constructors let through -----

  /** A request is about one message, in its own contract and tenant, or about one operation, and never about both. */
  lemma RequestShapes(q: AsyncExecutionRequest)
    ensures RequestWellFormed(q) <==>
            && ValidContractName(q.authorityContract) && ValidOptionalIdentifier(q.tenantId)
            && (q.runtimeProfileId == "runtime.api@1" || q.runtimeProfileId == "runtime.worker@1")
            && match (q.messageIdentity, q.operationId)
               case (Some(m), None) => q.authorityContract == m.consumerContract && q.tenantId == m.tenantId
               case (None, Some(id)) => ValidIdentifier(id)
               case _ => false
  {
    assert ValidIdentifier("runtime.api@1") && ValidIdentifier("runtime.worker@1");
  }

  /** An admission's tenant context is the one that its own fields determine, and there is none without a tenant. */
  lemma AdmissionShape(a: AsyncExecutionAdmission)
    ensures AdmissionWellFormed(a) <==>
            && ValidIdentifier(a.principalId) && ValidIdentifier(a.principalCredentialGeneration)
            && ValidIdentifier(a.authorizationRevision) && ValidIdentifier(a.admissionRevision)
            && ValidIdentifier(a.runtimeGeneration)
            && a.tenantContext ==
               if a.request.tenantId == None then None
               else Some(TenantContext(a.request.tenantId.value, a.principalId, a.principalCredentialGeneration,
                                       a.request.runtimeProfileId, a.runtimeGeneration, a.environmentClass))
  {
  }

  /** The four kinds of observation: unreconciled, confirmed, proven absent, and still unknown. */
  lemma SnapshotShapes(s: OperationSnapshot)
    ensures SnapshotWellFormed(s) <==>
            && ValidIdentifier(s.operationId)
            && ValidOptionalIdentifier(s.ownerContract) && ValidOptionalIdentifier(s.tenantId)
            && match s.resolution
               case None =>
                 && s.revision == None && s.resolvedGeneration == None
                 && (s.outcome != None <==> s.state == OperationCompleted)
               case Some(resolution) =>
                 && s.revision.Some? && ValidIdentifier(s.revision.value)
                 && s.attemptGeneration > 0 && s.resolvedGeneration == Some(s.attemptGeneration)
                 && match resolution
                    case EffectConfirmed => s.state == OperationCompleted && s.outcome != None
                    case EffectProvenAbsent => s.state == Prepared && s.outcome == None
                    case StillUnknown => s.state == OperationAmbiguous && s.outcome == None
  {
  }
}
