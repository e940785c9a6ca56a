/**
 What every run of the operation ledger keeps: a gapless chain of absence records, snapshots that
 never fail, absorbing end states, exact frames of failing calls and retired attempts.
 */
module OperationProofs {
  import opened Foundation
  import opened AsyncModel
  import opened OperationSpec
  import opened Leases

  // ----- The invariant -----

  /** `revision` names the record that proves generation `g` of the operation had no effect. */
  ghost predicate AbsenceRecorded(l: Ledger, id: string, g: nat, revision: string) {
    && (id, revision) in l.evidence
    && l.evidence[(id, revision)].attemptGeneration == g
    && l.evidence[(id, revision)].resolution.EffectProvenAbsent?
  }

  /** The scope of an operation is valid and its holder fields are present exactly while it is attempting. */
  ghost predicate WellScoped(o: Operation, id: string) {
    && o.operationId == id
    && ValidIdentifier(id) && ValidIdentifier(o.ownerContract) && ValidOptionalIdentifier(o.tenantId)
    && (o.state.Attempting? <==> o.executorId.Some?)
    && (o.state.Attempting? <==> o.attemptExpiresAt.Some?)
    && (o.state.Attempting? ==>
          && o.executionAdmission.Some?
          && var admission := o.executionAdmission.value;
             && admission.current
             && admission.request == AttemptRequest(o, admission.request.runtimeProfileId)
             && admission.observedAt < o.attemptExpiresAt.value)
    && (o.state.OperationCompleted? <==> o.outcome.Some?)
    && (o.attemptGeneration == 0 ==> o.state.Prepared?)
  }

  /** The current pointer has its record, at the current generation, and says what the state says. */
  ghost predicate PointerSound(l: Ledger, o: Operation) {
    && (o.revision.Some? <==> o.resolution.Some?)
    && (o.revision.Some? ==>
          && (o.operationId, o.revision.value) in l.evidence
          && l.evidence[(o.operationId, o.revision.value)].attemptGeneration == o.attemptGeneration
          && l.evidence[(o.operationId, o.revision.value)].resolution == o.resolution.value
          && o.attemptGeneration >= 1)
    && (o.resolution == Some(EffectConfirmed) ==> o.state.OperationCompleted?)
    && (o.resolution == Some(EffectProvenAbsent) ==> o.state.Prepared?)
    && (o.resolution == Some(StillUnknown) ==> o.state.OperationAmbiguous?)
    && (o.state.Prepared? && o.attemptGeneration > 0 ==> o.resolution == Some(EffectProvenAbsent))
  }

  /** A record belongs to an attempt that was made; the two conclusive kinds pin down the operation. */
  ghost predicate RecordSound(l: Ledger, key: EvidenceKey) {
    && key in l.evidence
    && key.0 in l.operations
    && ValidIdentifier(key.1)
    && var e, o := l.evidence[key], l.operations[key.0];
       && e.operationId == key.0 && e.revision == key.1
       && 1 <= e.attemptGeneration <= o.attemptGeneration
       && (e.resolution.EffectConfirmed? <==> e.confirmedOutcome.Some?)
       && (e.resolution.EffectProvenAbsent? && e.attemptGeneration == o.attemptGeneration ==>
             o.state.Prepared? && o.revision == Some(key.1))
       && (e.resolution.EffectConfirmed? ==>
             && e.attemptGeneration == o.attemptGeneration
             && o.state.OperationCompleted? && o.revision == Some(key.1)
             && o.outcome == e.confirmedOutcome)
  }

  ghost predicate Proven(l: Ledger, id: string, g: nat) {
    exists revision :: AbsenceRecorded(l, id, g, revision)
  }

  ghost predicate OperationsSound(l: Ledger) {
    forall id | id in l.operations :: WellScoped(l.operations[id], id) && PointerSound(l, l.operations[id])
  }

  ghost predicate RecordsSound(l: Ledger) {
    forall key | key in l.evidence :: RecordSound(l, key)
  }

  /** No gap: every generation before the current one has been proven to have had no effect. */
  ghost predicate ChainGapless(l: Ledger) {
    forall id, g: nat | id in l.operations && 1 <= g < l.operations[id].attemptGeneration :: Proven(l, id, g)
  }

  ghost predicate AbsenceUnique(l: Ledger) {
    forall id, g, r, r' | AbsenceRecorded(l, id, g, r) && AbsenceRecorded(l, id, g, r') :: r == r'
  }

  ghost predicate Inv(l: Ledger) {
    OperationsSound(l) && RecordsSound(l) && ChainGapless(l) && AbsenceUnique(l)
  }

  // ----- One operation changes, the evidence does not -----

  /** What any call other than `reconcile` may do to the operation it addresses. */
  ghost predicate LocalChange(o: Operation, o': Operation) {
    && o'.tenantId == o.tenantId && o'.ownerContract == o.ownerContract
    && (o' == o
        || (o.state.Attempting? && o'.attemptGeneration == o.attemptGeneration
            && !o'.state.Prepared? && !o'.state.Attempting? && o'.resolution == None && o'.revision == None)
        || (o.state.Prepared? && o'.state.Attempting? && o'.attemptGeneration == o.attemptGeneration + 1
            && o'.resolution == None && o'.revision == None))
  }

  lemma LocalChangeKeepsInv(l: Ledger, id: string, o': Operation)
    requires Inv(l) && id in l.operations
    requires LocalChange(l.operations[id], o') && WellScoped(o', id) && PointerSound(l, o')
    ensures Inv(Put(l, id, o'))
  {
    var o, l' := l.operations[id], Put(l, id, o');
    forall key | key in l'.evidence ensures RecordSound(l', key) {
      assert RecordSound(l, key);
    }
    forall i, g: nat | i in l'.operations && 1 <= g < l'.operations[i].attemptGeneration ensures Proven(l', i, g) {
      if i == id && g == o.attemptGeneration {
        assert AbsenceRecorded(l, id, g, o.revision.value);
        assert AbsenceRecorded(l', id, g, o.revision.value);
      } else {
        assert Proven(l, i, g);
        var r :| AbsenceRecorded(l, i, g, r);
        assert AbsenceRecorded(l', i, g, r);
      }
    }
    forall i, g, r, r' | AbsenceRecorded(l', i, g, r) && AbsenceRecorded(l', i, g, r') ensures r == r' {
      assert AbsenceRecorded(l, i, g, r) && AbsenceRecorded(l, i, g, r');
    }
  }

  lemma PrepareKeepsInv(l: Ledger, id: string, owner: string, tenant: Option<string>)
    requires Inv(l)
    ensures Inv(Prepare(l, id, owner, tenant).state)
  {
    var l' := Prepare(l, id, owner, tenant).state;
    if l' != l {
      forall key | key in l'.evidence ensures RecordSound(l', key) {
        assert RecordSound(l, key);
      }
      forall i, g: nat | i in l'.operations && 1 <= g < l'.operations[i].attemptGeneration ensures Proven(l', i, g) {
        assert Proven(l, i, g);
        var r :| AbsenceRecorded(l, i, g, r);
        assert AbsenceRecorded(l', i, g, r);
      }
      forall i, g, r, r' | AbsenceRecorded(l', i, g, r) && AbsenceRecorded(l', i, g, r') ensures r == r' {
        assert AbsenceRecorded(l, i, g, r) && AbsenceRecorded(l, i, g, r');
      }
    }
  }

  /** A reconciliation that is accepted never reuses a record of an earlier generation. */
  ghost predicate Accepted(l: Ledger, l': Ledger, id: string, resolution: Resolution, revision: string,
                           outcome: Option<EffectResultLink>) {
    && Reconcile(l, id, resolution, revision, outcome).answer.Ok?
    && Reconcile(l, id, resolution, revision, outcome).state == l'
  }

  lemma ReconcileKeepsOperations(l: Ledger, l': Ledger, id: string, resolution: Resolution, revision: string,
                                 outcome: Option<EffectResultLink>)
    requires OperationsSound(l) && Accepted(l, l', id, resolution, revision, outcome)
    ensures OperationsSound(l')
  {
    forall i | i in l'.operations ensures WellScoped(l'.operations[i], i) && PointerSound(l', l'.operations[i]) {
      assert WellScoped(l.operations[i], i) && PointerSound(l, l.operations[i]);
    }
  }

  lemma ReconcileKeepsRecords(l: Ledger, l': Ledger, id: string, resolution: Resolution, revision: string,
                              outcome: Option<EffectResultLink>)
    requires RecordsSound(l) && Accepted(l, l', id, resolution, revision, outcome)
    ensures RecordsSound(l')
  {
    forall key | key in l'.evidence ensures RecordSound(l', key) {
      if key != (id, revision) {
        assert RecordSound(l, key);
      }
    }
  }

  lemma ReconcileKeepsChain(l: Ledger, l': Ledger, id: string, resolution: Resolution, revision: string,
                            outcome: Option<EffectResultLink>)
    requires ChainGapless(l) && Accepted(l, l', id, resolution, revision, outcome)
    ensures ChainGapless(l')
  {
    forall i, g: nat | i in l'.operations && 1 <= g < l'.operations[i].attemptGeneration ensures Proven(l', i, g) {
      assert Proven(l, i, g);
      var r :| AbsenceRecorded(l, i, g, r);
      assert AbsenceRecorded(l', i, g, r);
    }
  }

  lemma ReconcileKeepsUnique(l: Ledger, l': Ledger, id: string, resolution: Resolution, revision: string,
                             outcome: Option<EffectResultLink>)
    requires RecordsSound(l) && AbsenceUnique(l) && Accepted(l, l', id, resolution, revision, outcome)
    ensures AbsenceUnique(l')
  {
    forall i, g, r, r' | AbsenceRecorded(l', i, g, r) && AbsenceRecorded(l', i, g, r') ensures r == r' {
      if (i, r) != (id, revision) && (i, r') != (id, revision) {
        assert AbsenceRecorded(l, i, g, r) && AbsenceRecorded(l, i, g, r');
      }
    }
  }

  lemma ReconcileKeepsInv(
    l: Ledger, id: string, resolution: Resolution, revision: string, outcome: Option<EffectResultLink>)
    requires Inv(l)
    ensures Inv(Reconcile(l, id, resolution, revision, outcome).state)
  {
    var l' := Reconcile(l, id, resolution, revision, outcome).state;
    if Accepted(l, l', id, resolution, revision, outcome) {
      ReconcileKeepsOperations(l, l', id, resolution, revision, outcome);
      ReconcileKeepsRecords(l, l', id, resolution, revision, outcome);
      ReconcileKeepsChain(l, l', id, resolution, revision, outcome);
      ReconcileKeepsUnique(l, l', id, resolution, revision, outcome);
    }
  }

  lemma BeginKeepsInv(l: Ledger, c: Call)
    requires Inv(l) && c.CallBegin?
    ensures Inv(Step(l, c).state)
  {
    if Step(l, c).answer.Ok? {
      LocalChangeKeepsInv(l, c.operationId, Step(l, c).state.operations[c.operationId]);
    }
  }

  lemma ExpireKeepsInv(l: Ledger, c: Call)
    requires Inv(l) && c.CallExpire?
    ensures Inv(Step(l, c).state)
  {
    if Require(l, c.operationId).Ok? && LeaseOver(l.operations[c.operationId], c.now) {
      LocalChangeKeepsInv(l, c.operationId, LapseAt(l.operations[c.operationId], c.now));
    }
  }

  /** The lease lapses first, and only then the holder acts; either way the operation stays sound. */
  lemma LapseKeepsOperation(l: Ledger, o: Operation, id: string, now: int)
    requires WellScoped(o, id) && PointerSound(l, o)
    ensures var o' := LapseAt(o, now); LocalChange(o, o') && WellScoped(o', id) && PointerSound(l, o')
  {
  }

  lemma ActKeepsOperation(l: Ledger, o: Operation, id: string, action: AttemptAction)
    requires WellScoped(o, id) && PointerSound(l, o) && o.state.Attempting?
    ensures var o' := Apply(o, action); LocalChange(o, o') && WellScoped(o', id) && PointerSound(l, o')
  {
  }

  lemma UnderKeepsInv(l: Ledger, c: Call)
    requires Inv(l) && c.CallUnder?
    ensures Inv(Step(l, c).state)
  {
    var id := c.attempt.operationId;
    if ActionInputValid(c.action) && Require(l, id).Ok? {
      var o := l.operations[id];
      assert WellScoped(o, id) && PointerSound(l, o);
      if HeldBy(LapseAt(o, c.now), c.attempt) {
        ActKeepsOperation(l, o, id, c.action);
        LocalChangeKeepsInv(l, id, Apply(o, c.action));
      } else {
        LapseKeepsOperation(l, o, id, c.now);
        LocalChangeKeepsInv(l, id, LapseAt(o, c.now));
      }
    }
  }

  lemma StepKeepsInv(l: Ledger, c: Call)
    requires Inv(l)
    ensures Inv(Step(l, c).state)
  {
    match c
    case CallPrepare(id, owner, tenant) => PrepareKeepsInv(l, id, owner, tenant);
    case CallReconcile(id, resolution, revision, outcome) => ReconcileKeepsInv(l, id, resolution, revision, outcome);
    case CallBegin(_, _, _, _, _) => BeginKeepsInv(l, c);
    case CallExpire(_, _) => ExpireKeepsInv(l, c);
    case CallUnder(_, _, _) => UnderKeepsInv(l, c);
  }

  lemma {:induction false} RunKeepsInv(l: Ledger, calls: seq<Call>)
    requires Inv(l)
    ensures Inv(Run(l, calls))
    decreases |calls|
  {
    if calls != [] {
      StepKeepsInv(l, calls[0]);
      RunKeepsInv(Step(l, calls[0]).state, calls[1..]);
    }
  }

  /** In every run, each generation before the current one has exactly one absence record and no confirmation. */
  lemma ExactlyOneAbsence(calls: seq<Call>, id: string, k: nat)
    requires id in Run(EMPTY, calls).operations
    requires 1 <= k < Run(EMPTY, calls).operations[id].attemptGeneration
    ensures exists r ::
              && AbsenceRecorded(Run(EMPTY, calls), id, k, r)
              && forall r' | AbsenceRecorded(Run(EMPTY, calls), id, k, r') :: r' == r
    ensures forall key | key in Run(EMPTY, calls).evidence && key.0 == id ::
              var e := Run(EMPTY, calls).evidence[key];
              e.attemptGeneration == k ==> !e.resolution.EffectConfirmed?
  {
    var l := Run(EMPTY, calls);
    RunKeepsInv(EMPTY, calls);
    assert Proven(l, id, k);
    var r :| AbsenceRecorded(l, id, k, r);
    forall key | key in l.evidence && key.0 == id && l.evidence[key].attemptGeneration == k
      ensures !l.evidence[key].resolution.EffectConfirmed?
    {
      assert RecordSound(l, key);
    }
  }

  // ----- What later calls can no longer change -----

  /** `l'` may follow `l`: scopes are fixed, evidence only grows, end states are final, generations never drop. */
  ghost predicate Extends(l: Ledger, l': Ledger) {
    && (forall id | id in l.operations ::
          && id in l'.operations
          && var o, o' := l.operations[id], l'.operations[id];
             && o'.ownerContract == o.ownerContract && o'.tenantId == o.tenantId
             && o.attemptGeneration <= o'.attemptGeneration
             && (o.state.OperationCompleted? || o.state.OperationFailed? ==> o' == o))
    && (forall key | key in l.evidence :: key in l'.evidence && l'.evidence[key] == l.evidence[key])
  }

  function Addressed(c: Call): string {
    if c.CallUnder? then c.attempt.operationId else c.operationId
  }

  /** How one call may move the operation it addresses. */
  ghost predicate Transition(o: Operation, o': Operation, answer: Result<Answer>) {
    && o'.operationId == o.operationId && o'.ownerContract == o.ownerContract && o'.tenantId == o.tenantId
    && if answer.Ok? && answer.value.Begun? then
         o.state.Prepared? && o'.attemptGeneration == o.attemptGeneration + 1
         && HeldBy(o', answer.value.attempt) && answer.value.attempt.operationId == o.operationId
       else
         o' == o || ((o.state.Attempting? || o.state.OperationAmbiguous?) && !o'.state.Attempting?
                     && o'.attemptGeneration == o.attemptGeneration)
  }

  /** Only the addressed operation moves, by one transition, and evidence is only added. */
  ghost predicate LedgerStep(l: Ledger, c: Call, l': Ledger, answer: Result<Answer>) {
    var id := Addressed(c);
    && (if id in l.operations then
          id in l'.operations && Transition(l.operations[id], l'.operations[id], answer)
          && l'.operations == l.operations[id := l'.operations[id]]
        else
          && !(answer.Ok? && answer.value.Begun?)
          && (l'.operations == l.operations
              || (c.CallPrepare?
                  && l'.operations == l.operations[id := NewOperation(id, c.tenantId, c.ownerContract)])))
    && (forall key | key in l.evidence :: key in l'.evidence && l'.evidence[key] == l.evidence[key])
    && (answer.Ok? && answer.value.Begun? ==> answer.value.attempt.operationId == id)
  }

  ghost predicate Identified(l: Ledger) {
    forall id | id in l.operations :: l.operations[id].operationId == id
  }

  lemma BeginIsLedgerStep(l: Ledger, c: Call)
    requires c.CallBegin? && Identified(l)
    ensures LedgerStep(l, c, Step(l, c).state, Step(l, c).answer)
  {
  }

  lemma UnderIsLedgerStep(l: Ledger, c: Call)
    requires c.CallUnder?
    ensures LedgerStep(l, c, Step(l, c).state, Step(l, c).answer)
  {
  }

  lemma ReconcileIsLedgerStep(l: Ledger, c: Call)
    requires c.CallReconcile?
    ensures LedgerStep(l, c, Step(l, c).state, Step(l, c).answer)
  {
  }

  lemma StepIsLedgerStep(l: Ledger, c: Call)
    requires Identified(l)
    ensures LedgerStep(l, c, Step(l, c).state, Step(l, c).answer)
  {
    match c
    case CallPrepare(_, _, _) =>
    case CallBegin(_, _, _, _, _) => BeginIsLedgerStep(l, c);
    case CallExpire(_, _) =>
    case CallUnder(_, _, _) => UnderIsLedgerStep(l, c);
    case CallReconcile(_, _, _, _) => ReconcileIsLedgerStep(l, c);
  }

  lemma StepExtends(l: Ledger, c: Call)
    requires Identified(l)
    ensures Extends(l, Step(l, c).state)
  {
    StepIsLedgerStep(l, c);
  }

  lemma {:induction false} RunExtends(l: Ledger, calls: seq<Call>)
    requires Inv(l)
    ensures Extends(l, Run(l, calls))
    decreases |calls|
  {
    if calls != [] {
      StepExtends(l, calls[0]);
      StepKeepsInv(l, calls[0]);
      RunExtends(Step(l, calls[0]).state, calls[1..]);
    }
  }

  // ----- Snapshots never fail -----

  /** Every prepared operation can be observed, and the observation is the stored operation. */
  lemma SnapshotTotal(calls: seq<Call>, id: string)
    requires id in Run(EMPTY, calls).operations
    ensures var l := Run(EMPTY, calls);
            var o := l.operations[id];
            && Snapshot(l, id).Ok?
            && var s := Snapshot(l, id).value;
               && SnapshotWellFormed(s)
               && s.operationId == id && s.state == o.state && s.attemptGeneration == o.attemptGeneration
               && s.ownerContract == Some(o.ownerContract) && s.tenantId == o.tenantId && s.outcome == o.outcome
               && s.resolution == o.resolution && s.revision == o.revision
               && (s.revision.Some? ==> s.resolvedGeneration == Some(o.attemptGeneration))
  {
    RunKeepsInv(EMPTY, calls);
    SnapshotOfSound(Run(EMPTY, calls), id);
  }

  lemma SnapshotOfSound(l: Ledger, id: string)
    requires Inv(l) && id in l.operations
    ensures Snapshot(l, id).Ok?
    ensures SnapshotWellFormed(Snapshot(l, id).value)
  {
    var o := l.operations[id];
    assert WellScoped(o, id) && PointerSound(l, o);
    if o.revision.Some? {
      assert RecordSound(l, (id, o.revision.value));
    }
  }

  // ----- Failing calls -----

  /** The only trace a failing call may leave: the addressed lease, if it is over at the supplied time. */
  function FailureFrame(l: Ledger, c: Call): Ledger {
    if c.CallUnder? && ActionInputValid(c.action) && Require(l, c.attempt.operationId).Ok? then
      Put(l, c.attempt.operationId, LapseAt(l.operations[c.attempt.operationId], c.now))
    else l
  }

  lemma FailingCallFrame(l: Ledger, c: Call)
    requires Step(l, c).answer.Err?
    ensures Step(l, c).state == FailureFrame(l, c)
    ensures Step(l, c).state.evidence == l.evidence
    ensures forall id | id in l.operations ::
              var o, o' := l.operations[id], Step(l, c).state.operations[id];
              o' == o || (c.CallUnder? && LeaseOver(o, c.now) && o' == Block(o, LEASE_EXPIRED))
  {
    match c
    case CallPrepare(_, _, _) =>
    case CallBegin(_, _, _, _, _) =>
    case CallExpire(_, _) =>
    case CallUnder(_, _, _) =>
    case CallReconcile(_, _, _, _) =>
  }

  // ----- Retired attempts -----

  function SlotOf(o: Operation): Slot<OperationAttempt> {
    if o.state.Attempting? && o.executorId.Some? && o.attemptExpiresAt.Some? && o.executionAdmission.Some? then
      Held(o.attemptGeneration,
           OperationAttempt(o.operationId, o.attemptGeneration, o.executorId.value, o.attemptExpiresAt.value,
                            o.executionAdmission.value))
    else Idle(o.attemptGeneration)
  }

  function Slots(l: Ledger): map<string, Slot<OperationAttempt>> {
    map id | id in l.operations :: SlotOf(l.operations[id])
  }

  function GrantOf(answer: Result<Answer>): Option<Grant<string, OperationAttempt>> {
    if answer.Ok? && answer.value.Begun? then
      var a := answer.value.attempt;
      Some(Grant(a.operationId, a.attemptGeneration, a))
    else None
  }

  /** A ledger together with the attempts it has handed out so far, oldest first. */
  datatype Traced = Traced(ledger: Ledger, grants: seq<Grant<string, OperationAttempt>>)

  function TraceStep(t: Traced, c: Call): Traced {
    Traced(Step(t.ledger, c).state, t.grants + AsSeq(GrantOf(Step(t.ledger, c).answer)))
  }

  function Trace(t: Traced, calls: seq<Call>): Traced
    decreases |calls|
  {
    if calls == [] then t else Trace(TraceStep(t, calls[0]), calls[1..])
  }

  const FRESH := Traced(EMPTY, [])

  lemma LedgerStepIsTableStep(l: Ledger, c: Call, l': Ledger, answer: Result<Answer>)
    requires Identified(l) && LedgerStep(l, c, l', answer)
    ensures TableStep(Slots(l), Slots(l'), GrantOf(answer))
  {
    var granted := GrantOf(answer);
    forall id | id in l.operations
      ensures id in l'.operations
      ensures SlotStep(SlotOf(l.operations[id]), SlotOf(l'.operations[id]),
                       if granted.Some? && granted.value.key == id then Some(granted.value.claim) else None)
    {
      if id == Addressed(c) {
        assert Transition(l.operations[id], l'.operations[id], answer);
      } else {
        assert l'.operations[id] == l.operations[id];
      }
    }
  }

  ghost predicate Tracked(t: Traced) {
    && Inv(t.ledger)
    && History(Slots(t.ledger), t.grants)
    && forall i | 0 <= i < |t.grants| ::
         && t.grants[i].claim.operationId == t.grants[i].key
         && t.grants[i].claim.attemptGeneration == t.grants[i].generation
  }

  lemma StepKeepsTracked(t: Traced, c: Call)
    requires Tracked(t)
    ensures Tracked(TraceStep(t, c))
  {
    var l, l', answer := t.ledger, Step(t.ledger, c).state, Step(t.ledger, c).answer;
    StepKeepsInv(l, c);
    StepIsLedgerStep(l, c);
    LedgerStepIsTableStep(l, c, l', answer);
    HistoryStep(Slots(l), Slots(l'), t.grants, GrantOf(answer));
  }

  lemma {:induction false} TraceKeepsTracked(t: Traced, calls: seq<Call>)
    requires Tracked(t)
    ensures Tracked(Trace(t, calls))
    decreases |calls|
  {
    if calls != [] {
      StepKeepsTracked(t, calls[0]);
      TraceKeepsTracked(TraceStep(t, calls[0]), calls[1..]);
    }
  }

  lemma LedgerStepKeepsRetired(l: Ledger, c: Call, l': Ledger, answer: Result<Answer>, id: string, g: nat)
    requires LedgerStep(l, c, l', answer) && id in l.operations && Retired(SlotOf(l.operations[id]), g)
    ensures id in l'.operations && Retired(SlotOf(l'.operations[id]), g)
  {
    assert id != Addressed(c) ==> l'.operations[id] == l.operations[id];
  }

  lemma {:induction false} RunKeepsRetired(l: Ledger, calls: seq<Call>, id: string, g: nat)
    requires Inv(l) && id in l.operations && Retired(SlotOf(l.operations[id]), g)
    ensures id in Run(l, calls).operations && Retired(SlotOf(Run(l, calls).operations[id]), g)
    decreases |calls|
  {
    if calls != [] {
      var l', answer := Step(l, calls[0]).state, Step(l, calls[0]).answer;
      StepKeepsInv(l, calls[0]);
      StepIsLedgerStep(l, calls[0]);
      LedgerStepKeepsRetired(l, calls[0], l', answer, id, g);
      RunKeepsRetired(l', calls[1..], id, g);
    }
  }

  /** Would the ledger let this attempt act at this time? */
  predicate Accepts(l: Ledger, a: OperationAttempt, now: int) {
    Require(l, a.operationId).Ok? && HeldBy(LapseAt(l.operations[a.operationId], now), a)
  }

  lemma RetiredIsRefused(l: Ledger, a: OperationAttempt, now: int)
    requires a.operationId in l.operations && Retired(SlotOf(l.operations[a.operationId]), a.attemptGeneration)
    ensures !Accepts(l, a, now)
    ensures forall action :: UnderAttempt(l, a, action, now).answer.Err?
  {
  }

  /** Generations handed out for one operation strictly increase, and at most one of its attempts is acceptable. */
  lemma OneLiveAttempt(calls: seq<Call>, i: nat, j: nat, now: int, now': int)
    requires i < j < |Trace(FRESH, calls).grants|
    requires Trace(FRESH, calls).grants[i].key == Trace(FRESH, calls).grants[j].key
    ensures var t := Trace(FRESH, calls);
            var a, b := t.grants[i].claim, t.grants[j].claim;
            && a.attemptGeneration < b.attemptGeneration
            && !(Accepts(t.ledger, a, now) && Accepts(t.ledger, b, now'))
  {
    TraceKeepsTracked(FRESH, calls);
  }

  /** Presenting an issued attempt with valid input retires its generation, whether or not it was accepted. */
  lemma PresentingRetires(t: Traced, i: nat, action: AttemptAction, now: int)
    requires Tracked(t) && i < |t.grants| && ActionInputValid(action)
    ensures var a := t.grants[i].claim;
            var used := Step(t.ledger, CallUnder(a, action, now)).state;
            && used == UnderAttempt(t.ledger, a, action, now).state
            && a.operationId in used.operations
            && Retired(SlotOf(used.operations[a.operationId]), a.attemptGeneration)
  {
    var a := t.grants[i].claim;
    var o := t.ledger.operations[a.operationId];
    assert WellScoped(o, a.operationId);
  }

  /**
   An attempt that was handed out and then presented once, whatever came of it, is refused for ever
   after: at any clock value, for any action and after any further calls.
   */
  lemma AttemptActsAtMostOnce(
    before: seq<Call>, i: nat, action: AttemptAction, now: int, later: seq<Call>, action': AttemptAction, now': int)
    requires i < |Trace(FRESH, before).grants| && ActionInputValid(action)
    ensures var t := Trace(FRESH, before);
            var a := t.grants[i].claim;
            var used := UnderAttempt(t.ledger, a, action, now).state;
            UnderAttempt(Run(used, later), a, action', now').answer.Err?
  {
    var t := Trace(FRESH, before);
    var a := t.grants[i].claim;
    var call := CallUnder(a, action, now);
    TraceKeepsTracked(FRESH, before);
    PresentingRetires(t, i, action, now);
    StepKeepsInv(t.ledger, call);
    var used := Step(t.ledger, call).state;
    RunKeepsRetired(used, later, a.operationId, a.attemptGeneration);
    RetiredIsRefused(Run(used, later), a, now');
  }

  // ----- At most one generation ever takes effect -----

  /** `effects` holds the attempt generations whose effect has happened in the outside world. */
  datatype World = World(ledger: Ledger, effects: set<(string, nat)>)

  datatype Event = Ledgered(call: Call) | EffectHappens(operationId: string, generation: nat)

  /**
   A truthful reconciler: absence is recorded only for a generation that has had no effect, and
   such a generation has none later. Nothing else is asked of executors: any generation ever
   begun, however stale, may take effect at any time.
   */
  ghost predicate Truthful(w: World, e: Event) {
    match e
    case EffectHappens(id, g) =>
      id in w.ledger.operations && 1 <= g <= w.ledger.operations[id].attemptGeneration && !Proven(w.ledger, id, g)
    case Ledgered(c) =>
      c.CallReconcile? && c.resolution.EffectProvenAbsent? && Step(w.ledger, c).answer.Ok? ==>
        (c.operationId, w.ledger.operations[c.operationId].attemptGeneration) !in w.effects
  }

  function After(w: World, e: Event): World {
    match e
    case EffectHappens(id, g) => w.(effects := w.effects + {(id, g)})
    case Ledgered(c) => w.(ledger := Step(w.ledger, c).state)
  }

  ghost predicate TruthfulRun(w: World, events: seq<Event>)
    decreases |events|
  {
    events != [] ==> Truthful(w, events[0]) && TruthfulRun(After(w, events[0]), events[1..])
  }

  function EndOf(w: World, events: seq<Event>): World
    decreases |events|
  {
    if events == [] then w else EndOf(After(w, events[0]), events[1..])
  }

  ghost predicate EffectsSound(w: World) {
    && Inv(w.ledger)
    && forall x | x in w.effects ::
         && x.0 in w.ledger.operations
         && 1 <= x.1 <= w.ledger.operations[x.0].attemptGeneration
         && !Proven(w.ledger, x.0, x.1)
  }

  lemma NothingElseBecomesProven(w: World, c: Call, x: (string, nat))
    requires Truthful(w, Ledgered(c)) && x in w.effects && !Proven(w.ledger, x.0, x.1)
    ensures !Proven(Step(w.ledger, c).state, x.0, x.1)
  {
    var l, l' := w.ledger, Step(w.ledger, c).state;
    forall r ensures !AbsenceRecorded(l', x.0, x.1, r) {
      assert !AbsenceRecorded(l, x.0, x.1, r);
      if l'.evidence != l.evidence {
        assert c.CallReconcile? && l'.evidence.Keys == l.evidence.Keys + {(c.operationId, c.revision)};
      }
    }
  }

  lemma TruthfulStepKeepsEffects(w: World, e: Event)
    requires EffectsSound(w) && Truthful(w, e)
    ensures EffectsSound(After(w, e))
  {
    if e.Ledgered? {
      var l, l' := w.ledger, After(w, e).ledger;
      StepKeepsInv(l, e.call);
      StepExtends(l, e.call);
      forall x | x in w.effects ensures !Proven(l', x.0, x.1) {
        NothingElseBecomesProven(w, e.call, x);
      }
    }
  }

  lemma {:induction false} RunKeepsEffects(w: World, events: seq<Event>)
    requires EffectsSound(w) && TruthfulRun(w, events)
    ensures EffectsSound(EndOf(w, events))
    decreases |events|
  {
    if events != [] {
      TruthfulStepKeepsEffects(w, events[0]);
      RunKeepsEffects(After(w, events[0]), events[1..]);
    }
  }

  lemma SoundEffectIsCurrent(w: World, id: string, g: nat)
    requires EffectsSound(w) && (id, g) in w.effects
    ensures id in w.ledger.operations
    ensures g == w.ledger.operations[id].attemptGeneration && !w.ledger.operations[id].state.Prepared?
  {
    var o := w.ledger.operations[id];
    assert !Proven(w.ledger, id, g);
    if o.state.Prepared? {
      assert PointerSound(w.ledger, o) && WellScoped(o, id);
      assert AbsenceRecorded(w.ledger, id, g, o.revision.value);
    }
  }

  /** Under a truthful reconciler only the current generation can have taken effect, so at most one ever does. */
  lemma AtMostOneGenerationTakesEffect(events: seq<Event>, id: string, g: nat)
    requires TruthfulRun(World(EMPTY, {}), events)
    requires (id, g) in EndOf(World(EMPTY, {}), events).effects
    ensures var w := EndOf(World(EMPTY, {}), events);
            && id in w.ledger.operations
            && g == w.ledger.operations[id].attemptGeneration
            && !w.ledger.operations[id].state.Prepared?
            && forall g' | (id, g') in w.effects :: g' == g
  {
    var w := EndOf(World(EMPTY, {}), events);
    RunKeepsEffects(World(EMPTY, {}), events);
    SoundEffectIsCurrent(w, id, g);
    forall g' | (id, g') in w.effects ensures g' == g {
      SoundEffectIsCurrent(w, id, g');
    }
  }
}
