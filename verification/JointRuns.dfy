/**
 The inbox and the operation ledger running together, with the second as the operation authority of
 the first. Calls on the two interleave in any order, with any arguments and any clock values.
 */
module JointRuns {
  import opened Foundation
  import opened AsyncModel
  import O = OperationSpec
  import OP = OperationProofs
  import I = InboxSpec
  import IP = InboxProofs

  datatype World = World(operations: O.Ledger, inbox: I.Ledger)

  datatype Call = OnOperations(operation: O.Call) | OnInbox(inbox: I.Call)

  const START := World(O.EMPTY, I.EMPTY)

  function Step(w: World, c: Call): World {
    match c
    case OnOperations(call) => w.(operations := O.Step(w.operations, call).state)
    case OnInbox(call) => w.(inbox := I.Step(w.inbox, call, O.Port(w.operations)).state)
  }

  function Run(w: World, calls: seq<Call>): World
    decreases |calls|
  {
    if calls == [] then w else Run(Step(w, calls[0]), calls[1..])
  }

  // ----- What a receipt owes to the operation ledger -----

  /** A bound operation exists, under the receipt's own tenant and owner contract. */
  ghost predicate InScope(ops: O.Ledger, r: I.Receipt) {
    r.operationId.Some? ==>
      && r.operationId.value in ops.operations
      && ops.operations[r.operationId.value].ownerContract == r.identity.consumerContract
      && ops.operations[r.operationId.value].tenantId == r.identity.tenantId
  }

  /** A result ends execution, and is the result of the bound operation if there is one. */
  ghost predicate ResultFinal(ops: O.Ledger, r: I.Receipt) {
    && (r.state.Completed? ==> r.resultLink.Some?)
    && (r.resultLink.Some? ==>
          && !r.state.Admitted? && !r.state.Processing?
          && (r.operationId.Some? ==>
                && r.operationId.value in ops.operations
                && ops.operations[r.operationId.value].state.OperationCompleted?
                && ops.operations[r.operationId.value].outcome == r.resultLink))
  }

  ghost predicate NamesAbsence(ops: O.Ledger, operationId: string, revision: string) {
    exists g :: OP.AbsenceRecorded(ops, operationId, g, revision)
  }

  ghost predicate AbsenceKnown(ops: O.Ledger, operationId: string) {
    exists revision :: NamesAbsence(ops, operationId, revision)
  }

  /**
   A receipt that may run again names a stored proof of absence. One that has run twice, whatever became of it,
   has an operation with such a proof, so without an operation it runs at most once.
   */
  ghost predicate RerunJustified(ops: O.Ledger, r: I.Receipt) {
    && (r.state.Admitted? && r.executionGeneration > 0 ==>
          && r.operationId.Some? && r.revision.Some?
          && NamesAbsence(ops, r.operationId.value, r.revision.value))
    && (r.executionGeneration >= 2 ==> r.operationId.Some? && AbsenceKnown(ops, r.operationId.value))
  }

  ghost predicate Owed(ops: O.Ledger, r: I.Receipt) {
    InScope(ops, r) && ResultFinal(ops, r) && RerunJustified(ops, r)
  }

  ghost predicate Inv(w: World) {
    && OP.Inv(w.operations)
    && IP.Inv(w.inbox)
    && forall key | key in w.inbox.receipts :: Owed(w.operations, w.inbox.receipts[key])
  }

  // ----- Preservation -----

  lemma PortFacts(ops: O.Ledger, r: I.Receipt, id: string)
    requires OP.Inv(ops) && I.SnapshotFor(r, id, O.Port(ops)).Ok?
    ensures id in ops.operations
    ensures var s, o := I.SnapshotFor(r, id, O.Port(ops)).value, ops.operations[id];
            && o.ownerContract == r.identity.consumerContract && o.tenantId == r.identity.tenantId
            && s.state == o.state && s.outcome == o.outcome && s.resolution == o.resolution
            && (s.resolution == Some(EffectProvenAbsent) && s.revision.Some? ==>
                  NamesAbsence(ops, id, s.revision.value))
  {
    var o := ops.operations[id];
    assert OP.WellScoped(o, id) && OP.PointerSound(ops, o);
    if o.resolution == Some(EffectProvenAbsent) {
      assert OP.AbsenceRecorded(ops, id, o.attemptGeneration, o.revision.value);
    }
  }

  lemma InboxTransitionKeepsOwed(
    ops: O.Ledger, r: I.Receipt, r': I.Receipt, answer: Result<I.Answer>)
    requires OP.Inv(ops) && Owed(ops, r) && IP.Transition(r, r', answer, O.Port(ops))
    ensures Owed(ops, r')
  {
    var port := O.Port(ops);
    if IP.BoundTo(r, r', port) {
      PortFacts(ops, r, r'.operationId.value);
    } else if IP.Finished(r, r', port) || IP.Readmitted(r, r', port) {
      if r.operationId.Some? {
        PortFacts(ops, r, r.operationId.value);
      }
    }
  }

  lemma AbsenceStaysNamed(ops: O.Ledger, ops': O.Ledger, id: string, revision: string)
    requires OP.Extends(ops, ops') && NamesAbsence(ops, id, revision)
    ensures NamesAbsence(ops', id, revision)
  {
    var g :| OP.AbsenceRecorded(ops, id, g, revision);
    assert OP.AbsenceRecorded(ops', id, g, revision);
  }

  lemma OperationStepKeepsOwed(ops: O.Ledger, ops': O.Ledger, r: I.Receipt)
    requires OP.Extends(ops, ops') && Owed(ops, r)
    ensures Owed(ops', r)
  {
    if r.state.Admitted? && r.executionGeneration > 0 {
      AbsenceStaysNamed(ops, ops', r.operationId.value, r.revision.value);
    }
    if r.executionGeneration >= 2 {
      var revision :| NamesAbsence(ops, r.operationId.value, revision);
      AbsenceStaysNamed(ops, ops', r.operationId.value, revision);
    }
  }

  lemma InboxStepKeepsInv(w: World, c: I.Call)
    requires Inv(w)
    ensures Inv(Step(w, OnInbox(c)))
  {
    var port := O.Port(w.operations);
    var l, l', answer := w.inbox, I.Step(w.inbox, c, port).state, I.Step(w.inbox, c, port).answer;
    IP.StepIsLedgerStep(l, c, port);
    IP.LedgerStepKeepsInv(l, c, port, l', answer);
    forall key | key in l'.receipts ensures Owed(w.operations, l'.receipts[key]) {
      if key in l.receipts {
        if key == IP.Addressed(c) {
          InboxTransitionKeepsOwed(w.operations, l.receipts[key], l'.receipts[key], answer);
        } else {
          assert l'.receipts[key] == l.receipts[key];
        }
      }
    }
  }

  lemma OperationCallKeepsInv(w: World, c: O.Call)
    requires Inv(w)
    ensures Inv(Step(w, OnOperations(c)))
  {
    var ops' := O.Step(w.operations, c).state;
    OP.StepKeepsInv(w.operations, c);
    OP.StepExtends(w.operations, c);
    forall key | key in w.inbox.receipts ensures Owed(ops', w.inbox.receipts[key]) {
      OperationStepKeepsOwed(w.operations, ops', w.inbox.receipts[key]);
    }
  }

  lemma StepKeepsInv(w: World, c: Call)
    requires Inv(w)
    ensures Inv(Step(w, c))
  {
    match c
    case OnOperations(call) => OperationCallKeepsInv(w, call);
    case OnInbox(call) => InboxStepKeepsInv(w, call);
  }

  lemma {:induction false} RunKeepsInv(w: World, calls: seq<Call>)
    requires Inv(w)
    ensures Inv(Run(w, calls))
    decreases |calls|
  {
    if calls != [] {
      StepKeepsInv(w, calls[0]);
      RunKeepsInv(Step(w, calls[0]), calls[1..]);
    }
  }

  // ----- Main results -----

  /** The receipt has a result, is out of execution, and keeps its result, generation and operation. */
  ghost predicate Frozen(r: I.Receipt, r': I.Receipt) {
    && r'.resultLink.Some? && r'.resultLink == r.resultLink
    && r'.executionGeneration == r.executionGeneration
    && r'.operationId == r.operationId
    && !r'.state.Admitted? && !r'.state.Processing?
  }

  lemma TransitionFreezes(ops: O.Ledger, r: I.Receipt, r': I.Receipt, answer: Result<I.Answer>)
    requires OP.Inv(ops) && Owed(ops, r) && r.resultLink.Some?
    requires IP.Transition(r, r', answer, O.Port(ops))
    ensures Frozen(r, r')
  {
    if r.operationId.Some? && I.SnapshotFor(r, r.operationId.value, O.Port(ops)).Ok? {
      PortFacts(ops, r, r.operationId.value);
    }
  }

  lemma StepFreezes(w: World, c: Call, key: I.Key)
    requires Inv(w) && key in w.inbox.receipts && w.inbox.receipts[key].resultLink.Some?
    ensures key in Step(w, c).inbox.receipts
    ensures Frozen(w.inbox.receipts[key], Step(w, c).inbox.receipts[key])
  {
    if c.OnInbox? {
      var port := O.Port(w.operations);
      IP.StepIsLedgerStep(w.inbox, c.inbox, port);
      if key == IP.Addressed(c.inbox) {
        TransitionFreezes(w.operations, w.inbox.receipts[key], Step(w, c).inbox.receipts[key],
                          I.Step(w.inbox, c.inbox, port).answer);
      }
    }
  }

  lemma {:induction false} RunFreezes(w: World, calls: seq<Call>, key: I.Key)
    requires Inv(w) && key in w.inbox.receipts && w.inbox.receipts[key].resultLink.Some?
    ensures key in Run(w, calls).inbox.receipts
    ensures Frozen(w.inbox.receipts[key], Run(w, calls).inbox.receipts[key])
    decreases |calls|
  {
    if calls == [] {
      assert Owed(w.operations, w.inbox.receipts[key]);
    } else {
      StepFreezes(w, calls[0], key);
      StepKeepsInv(w, calls[0]);
      RunFreezes(Step(w, calls[0]), calls[1..], key);
    }
  }

  /**
   Once a receipt has a result it is never executed again: whatever is called later, on either ledger,
   it is neither admitted nor processing, and its result, generation and operation never change. This
   holds although later deliveries may still push it into reconciliation or quarantine.
   */
  lemma ResultEndsExecution(before: seq<Call>, later: seq<Call>, key: I.Key)
    requires key in Run(START, before).inbox.receipts
    requires Run(START, before).inbox.receipts[key].resultLink.Some?
    ensures var w := Run(START, before);
            && key in Run(w, later).inbox.receipts
            && Frozen(w.inbox.receipts[key], Run(w, later).inbox.receipts[key])
  {
    RunKeepsInv(START, before);
    RunFreezes(Run(START, before), later, key);
  }

  /** A result that came through an operation is, at every later moment, that operation's own outcome. */
  lemma ResultAgreesWithOperation(calls: seq<Call>, key: I.Key)
    requires key in Run(START, calls).inbox.receipts
    ensures var w := Run(START, calls);
            var r := w.inbox.receipts[key];
            && (r.state.Completed? ==> r.resultLink.Some?)
            && (r.resultLink.Some? && r.operationId.Some? ==>
                  && r.operationId.value in w.operations.operations
                  && w.operations.operations[r.operationId.value].state.OperationCompleted?
                  && w.operations.operations[r.operationId.value].outcome == r.resultLink)
  {
    RunKeepsInv(START, calls);
    assert Owed(Run(START, calls).operations, Run(START, calls).inbox.receipts[key]);
  }

  /** A stored record under this revision proves that some attempt of the operation had no effect. */
  predicate StoredAbsence(ops: O.Ledger, operationId: string, revision: string) {
    (operationId, revision) in ops.evidence && ops.evidence[(operationId, revision)].resolution.EffectProvenAbsent?
  }

  /**
   Lease expiry alone never leads to a second execution. An unbound receipt was executed at most once. One that
   was executed twice is, in every state, bound to an operation with a stored proof that an earlier attempt had no
   effect, and while it is admitted again it names such a proof.
   */
  lemma SecondExecutionJustified(calls: seq<Call>, key: I.Key)
    requires key in Run(START, calls).inbox.receipts
    ensures var w := Run(START, calls);
            var r := w.inbox.receipts[key];
            && (r.operationId.None? ==> r.executionGeneration <= 1)
            && (r.executionGeneration >= 2 ==>
                  r.operationId.Some? && exists revision :: StoredAbsence(w.operations, r.operationId.value, revision))
            && (r.state.Admitted? && r.executionGeneration > 0 ==>
                  && r.operationId.Some? && r.revision.Some?
                  && StoredAbsence(w.operations, r.operationId.value, r.revision.value))
  {
    RunKeepsInv(START, calls);
    var w := Run(START, calls);
    var r := w.inbox.receipts[key];
    assert Owed(w.operations, r);
    if r.executionGeneration >= 2 {
      var revision :| NamesAbsence(w.operations, r.operationId.value, revision);
      assert StoredAbsence(w.operations, r.operationId.value, revision);
    }
  }

  /** Receipts, operations and the admissions they run under always agree on tenant, owner and identity. */
  lemma ScopesAgree(calls: seq<Call>, key: I.Key)
    requires key in Run(START, calls).inbox.receipts
    ensures var w := Run(START, calls);
            var r := w.inbox.receipts[key];
            && r.identity.Key() == key
            && (r.operationId.Some? ==>
                  && r.operationId.value in w.operations.operations
                  && var o := w.operations.operations[r.operationId.value];
                     && o.ownerContract == r.identity.consumerContract && o.tenantId == r.identity.tenantId
                     && (o.state.Attempting? ==>
                           && o.executorId.Some? && o.attemptExpiresAt.Some? && o.executionAdmission.Some?
                           && o.executionAdmission.value.current
                           && o.executionAdmission.value.request.operationId == Some(o.operationId)
                           && o.executionAdmission.value.request.tenantId == r.identity.tenantId
                           && o.executionAdmission.value.request.authorityContract == r.identity.consumerContract))
            && (r.state.Processing? ==>
                  && r.executorId.Some? && r.claimExpiresAt.Some? && r.executionAdmission.Some?
                  && r.executionAdmission.value.current
                  && r.executionAdmission.value.request.messageIdentity == Some(r.identity)
                  && r.executionAdmission.value.request.tenantId == r.identity.tenantId)
  {
    RunKeepsInv(START, calls);
    var w := Run(START, calls);
    var r := w.inbox.receipts[key];
    assert Owed(w.operations, r) && IP.ReceiptSound(r);
    if r.operationId.Some? {
      assert OP.WellScoped(w.operations.operations[r.operationId.value], r.operationId.value);
    }
  }

  // ----- What runs never undo -----

  lemma TransitionKeepsBinding(r: I.Receipt, r': I.Receipt, answer: Result<I.Answer>, port: SnapshotPort)
    requires IP.Transition(r, r', answer, port) && r.operationId.Some?
    ensures r'.operationId == r.operationId && r'.identity == r.identity
  {
  }

  lemma StepKeepsBinding(w: World, c: Call, key: I.Key)
    requires key in w.inbox.receipts && w.inbox.receipts[key].operationId.Some?
    ensures key in Step(w, c).inbox.receipts
    ensures Step(w, c).inbox.receipts[key].operationId == w.inbox.receipts[key].operationId
    ensures Step(w, c).inbox.receipts[key].identity == w.inbox.receipts[key].identity
  {
    if c.OnInbox? {
      var port := O.Port(w.operations);
      IP.StepIsLedgerStep(w.inbox, c.inbox, port);
      if key == IP.Addressed(c.inbox) {
        TransitionKeepsBinding(w.inbox.receipts[key], Step(w, c).inbox.receipts[key],
                               I.Step(w.inbox, c.inbox, port).answer, port);
      }
    }
  }

  /** A receipt that is bound to an operation stays bound to it, with or without a result. */
  lemma {:induction false} RunKeepsBinding(w: World, calls: seq<Call>, key: I.Key)
    requires key in w.inbox.receipts && w.inbox.receipts[key].operationId.Some?
    ensures key in Run(w, calls).inbox.receipts
    ensures Run(w, calls).inbox.receipts[key].operationId == w.inbox.receipts[key].operationId
    ensures Run(w, calls).inbox.receipts[key].identity == w.inbox.receipts[key].identity
    decreases |calls|
  {
    if calls != [] {
      StepKeepsBinding(w, calls[0], key);
      RunKeepsBinding(Step(w, calls[0]), calls[1..], key);
    }
  }

  lemma ExtendsTransitive(a: O.Ledger, b: O.Ledger, c: O.Ledger)
    requires OP.Extends(a, b) && OP.Extends(b, c)
    ensures OP.Extends(a, c)
  {
    forall id | id in a.operations
      ensures id in c.operations && a.operations[id].attemptGeneration <= c.operations[id].attemptGeneration
    {
      assert id in b.operations;
    }
  }

  lemma {:induction false} RunExtendsOperations(w: World, calls: seq<Call>)
    requires Inv(w)
    ensures OP.Extends(w.operations, Run(w, calls).operations)
    decreases |calls|
  {
    if calls != [] {
      var next := Step(w, calls[0]);
      if calls[0].OnOperations? {
        OP.StepExtends(w.operations, calls[0].operation);
      }
      StepKeepsInv(w, calls[0]);
      RunExtendsOperations(next, calls[1..]);
      ExtendsTransitive(w.operations, next.operations, Run(w, calls).operations);
    }
  }

  lemma {:induction false} RunAppend(w: World, a: seq<Call>, b: seq<Call>)
    ensures Run(w, a + b) == Run(Run(w, a), b)
    decreases |a|
  {
    if a == [] {
      assert a + b == b;
    } else {
      assert (a + b)[1..] == a[1..] + b;
      RunAppend(Step(w, a[0]), a[1..], b);
    }
  }

  // ----- Calls with values that can be constructed -----

  predicate ActionWellFormed(action: I.ClaimAction) {
    match action
    case CompleteLocal(link) => ResultWellFormed(link)
    case CompleteCross(link) => ResultWellFormed(link)
    case _ => true
  }

  /** Identities, evidence and results passed in are ones that their constructors accept. */
  predicate CallWellFormed(c: Call) {
    match c
    case OnInbox(CallAdmit(identity, evidence)) => IdentityWellFormed(identity) && EvidenceWellFormed(evidence)
    case OnInbox(CallClaim(identity, _, _, _, _)) => IdentityWellFormed(identity)
    case OnInbox(CallExpire(identity, _)) => IdentityWellFormed(identity)
    case OnInbox(CallUnder(claim, action, _)) => IdentityWellFormed(claim.identity) && ActionWellFormed(action)
    case OnInbox(CallRetry(identity)) => IdentityWellFormed(identity)
    case OnInbox(CallConfirm(identity, link, _)) => IdentityWellFormed(identity) && ResultWellFormed(link)
    case OnOperations(CallUnder(_, action, _)) => action.Complete? ==> ResultWellFormed(action.outcome)
    case OnOperations(CallReconcile(_, _, _, outcome)) => outcome.Some? ==> ResultWellFormed(outcome.value)
    case OnOperations(_) => true
  }

  predicate WellFormed(calls: seq<Call>) {
    forall i | 0 <= i < |calls| :: CallWellFormed(calls[i])
  }

  ghost predicate StoredWellFormed(l: I.Ledger) {
    forall key | key in l.receipts ::
      IdentityWellFormed(l.receipts[key].identity) && EvidenceWellFormed(l.receipts[key].comparisonEvidence)
  }

  lemma StepKeepsStored(w: World, c: Call)
    requires StoredWellFormed(w.inbox) && CallWellFormed(c)
    ensures StoredWellFormed(Step(w, c).inbox)
  {
    if c.OnInbox? {
      var port := O.Port(w.operations);
      var o := I.Step(w.inbox, c.inbox, port);
      IP.StepIsLedgerStep(w.inbox, c.inbox, port);
      IP.LedgerStepKeepsIdentities(w.inbox, c.inbox, port, o.state, o.answer);
    }
  }

  lemma {:induction false} RunKeepsStored(w: World, calls: seq<Call>)
    requires StoredWellFormed(w.inbox) && WellFormed(calls)
    ensures StoredWellFormed(Run(w, calls).inbox)
    decreases |calls|
  {
    if calls != [] {
      StepKeepsStored(w, calls[0]);
      RunKeepsStored(Step(w, calls[0]), calls[1..]);
    }
  }
}
