/**
 How often one proof of absence can re-admit a receipt. The inbox does not consume the record; only a later
 attempt of the operation makes it worthless. That is the exact condition, over all joint runs.
 */
module AbsenceRecords {
  import opened Foundation
  import opened AsyncModel
  import O = OperationSpec
  import OP = OperationProofs
  import I = InboxSpec
  import IP = InboxProofs
  import J = JointRuns

  /** Asked now, the inbox re-admits this receipt and notes this revision. */
  predicate Readmits(w: J.World, key: I.Key, revision: string) {
    && key in w.inbox.receipts
    && var r := I.Readmit(w.inbox.receipts[key], O.Port(w.operations));
       r.Ok? && r.value.revision == Some(revision)
  }

  predicate ReadmitsAfter(w: J.World, calls: seq<J.Call>, key: I.Key, revision: string) {
    Readmits(J.Run(w, calls), key, revision)
  }

  predicate BoundTo(w: J.World, key: I.Key, id: string) {
    key in w.inbox.receipts && w.inbox.receipts[key].operationId == Some(id)
  }

  /** The record belongs to the operation's current generation: no later attempt has begun. */
  predicate CurrentAbsence(ops: O.Ledger, id: string, revision: string) {
    && J.StoredAbsence(ops, id, revision)
    && id in ops.operations
    && ops.evidence[(id, revision)].attemptGeneration == ops.operations[id].attemptGeneration
  }

  // ----- A record of an earlier generation is spent -----

  lemma ReadmitsCurrentOnly(w: J.World, key: I.Key, id: string, revision: string)
    requires J.Inv(w) && BoundTo(w, key, id) && Readmits(w, key, revision)
    ensures CurrentAbsence(w.operations, id, revision)
  {
    J.PortFacts(w.operations, w.inbox.receipts[key], id);
    assert OP.PointerSound(w.operations, w.operations.operations[id]);
    assert OP.WellScoped(w.operations.operations[id], id);
  }

  lemma SpentForEver(w: J.World, later: seq<J.Call>, key: I.Key, id: string, revision: string)
    requires J.Inv(w) && BoundTo(w, key, id) && J.StoredAbsence(w.operations, id, revision)
    requires !CurrentAbsence(w.operations, id, revision)
    ensures !ReadmitsAfter(w, later, key, revision)
  {
    var end := J.Run(w, later);
    J.RunKeepsInv(w, later);
    J.RunKeepsBinding(w, later, key);
    J.RunExtendsOperations(w, later);
    assert OP.RecordSound(w.operations, (id, revision));
    if Readmits(end, key, revision) {
      ReadmitsCurrentOnly(end, key, id, revision);
    }
  }

  // ----- A record of the current generation is not -----

  lemma CurrentAbsenceShows(ops: O.Ledger, id: string, revision: string)
    requires OP.Inv(ops) && CurrentAbsence(ops, id, revision)
    ensures O.Snapshot(ops, id).Ok? && SnapshotWellFormed(O.Snapshot(ops, id).value)
    ensures var s, o := O.Snapshot(ops, id).value, ops.operations[id];
            && s.operationId == id && s.ownerContract == Some(o.ownerContract) && s.tenantId == o.tenantId
            && s.state.Prepared? && s.resolution == Some(EffectProvenAbsent) && s.revision == Some(revision)
  {
    OP.SnapshotOfSound(ops, id);
    assert OP.RecordSound(ops, (id, revision));
    assert OP.PointerSound(ops, ops.operations[id]) && OP.WellScoped(ops.operations[id], id);
  }

  lemma BlockedReadmits(w: J.World, key: I.Key, id: string, revision: string)
    requires J.Inv(w) && BoundTo(w, key, id) && CurrentAbsence(w.operations, id, revision)
    requires w.inbox.receipts[key].state.ReconciliationRequired?
    ensures Readmits(w, key, revision)
  {
    CurrentAbsenceShows(w.operations, id, revision);
    assert J.Owed(w.operations, w.inbox.receipts[key]);
  }

  /** Well-formed evidence that cannot be compared with the given one. */
  function Incomparable(e: ComparisonEvidence): (other: ComparisonEvidence)
    ensures EvidenceWellFormed(other) && e.RelationTo(other).Unknown?
  {
    ComparisonEvidence("p", if e.profileVersion == "a" then "b" else "a", "f", [1], None)
  }

  function Redelivery(r: I.Receipt): J.Call {
    J.OnInbox(I.CallAdmit(r.identity, Incomparable(r.comparisonEvidence)))
  }

  lemma RedeliveryBlocks(w: J.World, key: I.Key, id: string)
    requires J.Inv(w) && BoundTo(w, key, id)
    ensures var w' := J.Step(w, Redelivery(w.inbox.receipts[key]));
            && w'.operations == w.operations
            && BoundTo(w', key, id) && w'.inbox.receipts[key].state.ReconciliationRequired?
  {
    IP.IncomparableEvidenceBlocks(w.inbox, key, Incomparable(w.inbox.receipts[key].comparisonEvidence));
  }

  lemma CurrentReadmitsAfterRedelivery(w: J.World, key: I.Key, id: string, revision: string)
    requires J.Inv(w) && BoundTo(w, key, id) && CurrentAbsence(w.operations, id, revision)
    requires J.StoredWellFormed(w.inbox)
    ensures J.WellFormed([Redelivery(w.inbox.receipts[key])])
    ensures ReadmitsAfter(w, [Redelivery(w.inbox.receipts[key])], key, revision)
  {
    var call := Redelivery(w.inbox.receipts[key]);
    RedeliveryBlocks(w, key, id);
    J.StepKeepsInv(w, call);
    BlockedReadmits(J.Step(w, call), key, id, revision);
    OneStep(w, call);
  }

  lemma OneStep(w: J.World, c: J.Call)
    ensures J.Run(w, [c]) == J.Step(w, c)
  {
    assert J.Run(J.Step(w, c), []) == J.Step(w, c);
  }

  /**
   A stored proof of absence can re-admit a bound receipt, now or after some further calls, exactly when it belongs
   to the operation's current generation, that is, when no later attempt was begun. This holds in every state of the
   receipt, and however often the same record has re-admitted it before. Only calls with values that can be
   constructed are considered.
   */
  lemma ReadmitsAgainIffNoLaterAttempt(before: seq<J.Call>, key: I.Key, id: string, revision: string)
    requires J.WellFormed(before)
    requires BoundTo(J.Run(J.START, before), key, id)
    requires J.StoredAbsence(J.Run(J.START, before).operations, id, revision)
    ensures var w := J.Run(J.START, before);
            (exists later :: J.WellFormed(later) && ReadmitsAfter(w, later, key, revision)) <==>
            CurrentAbsence(w.operations, id, revision)
  {
    var w := J.Run(J.START, before);
    J.RunKeepsInv(J.START, before);
    J.RunKeepsStored(J.START, before);
    if CurrentAbsence(w.operations, id, revision) {
      CurrentReadmitsAfterRedelivery(w, key, id, revision);
    } else {
      forall later ensures !ReadmitsAfter(w, later, key, revision) {
        SpentForEver(w, later, key, id, revision);
      }
    }
  }

  // ----- Executions under one record -----

  /** The means of one claim: who executes, under which admission and until when. */
  datatype Means = Means(executorId: string, admission: AsyncExecutionAdmission, expires: int, profile: string)

  predicate Sufficient(identity: ScopedMessageIdentity, m: Means) {
    && ValidIdentifier(m.executorId)
    && RequestWellFormed(I.ClaimRequest(identity, m.profile))
    && RequireCurrentExecution(Some(m.admission), I.ClaimRequest(identity, m.profile)).Ok?
    && m.admission.observedAt < m.expires
  }

  predicate AdmittedUnder(w: J.World, key: I.Key, id: string, revision: string) {
    && BoundTo(w, key, id)
    && w.inbox.receipts[key].state.Admitted?
    && w.inbox.receipts[key].revision == Some(revision)
  }

  /** Claim, let the lease lapse, and ask to be re-admitted. */
  function Round(identity: ScopedMessageIdentity, m: Means): seq<J.Call> {
    [J.OnInbox(I.CallClaim(identity, m.executorId, Some(m.admission), m.expires, m.profile)),
     J.OnInbox(I.CallExpire(identity, m.expires)),
     J.OnInbox(I.CallRetry(identity))]
  }

  function Rounds(identity: ScopedMessageIdentity, m: Means, n: nat): seq<J.Call> {
    if n == 0 then [] else Round(identity, m) + Rounds(identity, m, n - 1)
  }

  lemma ThreeSteps(w: J.World, a: J.Call, b: J.Call, c: J.Call)
    ensures J.Run(w, [a, b, c]) == J.Step(J.Step(J.Step(w, a), b), c)
  {
    assert [a, b, c][1..] == [b, c] && [b, c][1..] == [c];
    assert J.Run(J.Step(J.Step(w, a), b), [c]) == J.Step(J.Step(J.Step(w, a), b), c);
  }

  lemma ClaimThenLapse(l: I.Ledger, r: I.Receipt, m: Means, port: SnapshotPort)
    requires r.identity.Key() in l.receipts && l.receipts[r.identity.Key()] == r
    requires r.state.Admitted? && Sufficient(r.identity, m)
    ensures var claimed := I.ClaimEffect(l, r.identity, m.executorId, Some(m.admission), m.expires, m.profile).state;
            var lapsed := I.ExpireClaim(claimed, r.identity, m.expires).state;
            lapsed == I.Put(l, I.Block(I.Begin(r, m.executorId, m.expires, m.admission), I.LEASE_EXPIRED))
  {
    var begun := I.Begin(r, m.executorId, m.expires, m.admission);
    var claimed := I.ClaimEffect(l, r.identity, m.executorId, Some(m.admission), m.expires, m.profile).state;
    assert claimed == I.Put(l, begun);
    var lapsed := I.ExpireClaim(claimed, r.identity, m.expires).state;
    assert lapsed.receipts == I.Put(l, I.Block(begun, I.LEASE_EXPIRED)).receipts;
  }

  /** The call itself: a blocked receipt is admitted again under a current record. */
  lemma RetryReadmits(w: J.World, key: I.Key, id: string, revision: string)
    requires J.Inv(w) && BoundTo(w, key, id) && CurrentAbsence(w.operations, id, revision)
    requires w.inbox.receipts[key].state.ReconciliationRequired?
    ensures var r := w.inbox.receipts[key];
            var w' := J.Step(w, J.OnInbox(I.CallRetry(r.identity)));
            && w'.operations == w.operations
            && AdmittedUnder(w', key, id, revision)
            && w'.inbox.receipts[key].identity == r.identity
            && w'.inbox.receipts[key].executionGeneration == r.executionGeneration
  {
    BlockedReadmits(w, key, id, revision);
  }

  lemma LapsedRound(w: J.World, key: I.Key, m: Means)
    requires J.Inv(w) && key in w.inbox.receipts && w.inbox.receipts[key].state.Admitted?
    requires Sufficient(w.inbox.receipts[key].identity, m)
    ensures var r := w.inbox.receipts[key];
            var w' := J.Step(J.Step(w, Round(r.identity, m)[0]), Round(r.identity, m)[1]);
            && J.Inv(w') && w'.operations == w.operations
            && w'.inbox == I.Put(w.inbox, I.Block(I.Begin(r, m.executorId, m.expires, m.admission), I.LEASE_EXPIRED))
  {
    var r, calls := w.inbox.receipts[key], Round(w.inbox.receipts[key].identity, m);
    ClaimThenLapse(w.inbox, r, m, O.Port(w.operations));
    J.StepKeepsInv(w, calls[0]);
    J.StepKeepsInv(J.Step(w, calls[0]), calls[1]);
  }

  /** After these calls the receipt of this message is admitted under this record, which is current. */
  predicate ReadyAfter(calls: seq<J.Call>, identity: ScopedMessageIdentity, id: string, revision: string) {
    var w := J.Run(J.START, calls);
    && AdmittedUnder(w, identity.Key(), id, revision)
    && w.inbox.receipts[identity.Key()].identity == identity
    && CurrentAbsence(w.operations, id, revision)
  }

  function Generation(calls: seq<J.Call>, key: I.Key): nat {
    var w := J.Run(J.START, calls);
    if key in w.inbox.receipts then w.inbox.receipts[key].executionGeneration else 0
  }

  function Operations(calls: seq<J.Call>): O.Ledger { J.Run(J.START, calls).operations }

  lemma RoundReadmits(before: seq<J.Call>, identity: ScopedMessageIdentity, id: string, revision: string, m: Means)
    requires ReadyAfter(before, identity, id, revision) && Sufficient(identity, m)
    ensures var after := before + Round(identity, m);
            && ReadyAfter(after, identity, id, revision)
            && Operations(after) == Operations(before)
            && Generation(after, identity.Key()) == Generation(before, identity.Key()) + 1
  {
    var w, calls := J.Run(J.START, before), Round(identity, m);
    var lapsed := J.Step(J.Step(w, calls[0]), calls[1]);
    J.RunKeepsInv(J.START, before);
    J.RunAppend(J.START, before, calls);
    ThreeSteps(w, calls[0], calls[1], calls[2]);
    LapsedRound(w, identity.Key(), m);
    RetryReadmits(lapsed, identity.Key(), id, revision);
  }

  lemma {:induction false} RoundsWellFormed(identity: ScopedMessageIdentity, m: Means, n: nat)
    requires IdentityWellFormed(identity)
    ensures J.WellFormed(Rounds(identity, m, n))
    decreases n
  {
    if n > 0 {
      RoundsWellFormed(identity, m, n - 1);
    }
  }

  lemma Reassociate(before: seq<J.Call>, round: seq<J.Call>, rest: seq<J.Call>)
    ensures (before + round) + rest == before + (round + rest)
  {
  }

  /**
   One proof of absence re-admits a receipt any number of times: whenever a run leaves the receipt admitted under a
   current record, n more claims may lapse one after the other, and the receipt is again admitted under the same
   record, n execution generations later, while the operation ledger has not changed.
   */
  lemma {:induction false} AbsenceIsReusable(
    before: seq<J.Call>, identity: ScopedMessageIdentity, id: string, revision: string, m: Means, n: nat)
    requires ReadyAfter(before, identity, id, revision) && Sufficient(identity, m)
    ensures var after := before + Rounds(identity, m, n);
            && ReadyAfter(after, identity, id, revision)
            && Operations(after) == Operations(before)
            && Generation(after, identity.Key()) == Generation(before, identity.Key()) + n
    decreases n
  {
    if n == 0 {
      assert before + [] == before;
    } else {
      RoundReadmits(before, identity, id, revision, m);
      AbsenceIsReusable(before + Round(identity, m), identity, id, revision, m, n - 1);
      Reassociate(before, Round(identity, m), Rounds(identity, m, n - 1));
    }
  }

  // ----- A run in which it happens -----

  const MESSAGE := ScopedMessageIdentity("a.b", "s", "m", None)
  const EVIDENCE := ComparisonEvidence("p", "1", "f", [1], None)
  const PROFILE := "runtime.worker@1"
  const OPERATION := "o"
  const REVISION := "r"
  const RESULT := EffectResultLink("x", "y")

  function AdmissionFor(request: AsyncExecutionRequest): AsyncExecutionAdmission {
    AsyncExecutionAdmission(request, "p", "c", "a", "d", "g", EnvironmentClass.Development, 0, true, None)
  }

  const MEANS := Means("e", AdmissionFor(I.ClaimRequest(MESSAGE, PROFILE)), 1, PROFILE)

  function CreatedOperation(): O.Operation { O.NewOperation(OPERATION, None, "a.b") }

  lemma ShortIdentifier(s: string)
    requires |s| == 1 && AlphaNumeric(s[0])
    ensures ValidIdentifier(s)
  {
  }

  lemma NamesValid()
    ensures ValidContractName("a.b") && ValidIdentifier("a.b") && ValidIdentifier(PROFILE)
  {
    assert '.' == "a.b"[1];
  }

  lemma ScopeValid()
    ensures ValidIdentifier("p") && ValidIdentifier("c") && ValidIdentifier("a") && ValidIdentifier("d")
    ensures ValidIdentifier("g") && ValidIdentifier("e") && ValidIdentifier("o") && ValidIdentifier("r")
    ensures IdentityWellFormed(MESSAGE) && EvidenceWellFormed(EVIDENCE) && ResultWellFormed(RESULT)
  {
    NamesValid();
    ShortIdentifier("s");
    ShortIdentifier("m");
    ShortIdentifier("1");
    ShortIdentifier("f");
    ShortIdentifier("x");
    ShortIdentifier("y");
    ShortIdentifier("p");
    ShortIdentifier("c");
    ShortIdentifier("a");
    ShortIdentifier("d");
    ShortIdentifier("g");
    ShortIdentifier("e");
    ShortIdentifier("o");
    ShortIdentifier("r");
  }

  lemma MeansSuffice()
    ensures Sufficient(MESSAGE, MEANS)
  {
    NamesValid();
    ScopeValid();
  }

  /** The operation is prepared, attempted once, lost, and reconciled: its effect is proven absent. */
  const ATTEMPT: O.Call :=
    O.CallBegin(OPERATION, "e", Some(AdmissionFor(O.AttemptRequest(CreatedOperation(), PROFILE))), 1, PROFILE)

  const PREPARE: O.Call := O.CallPrepare(OPERATION, "a.b", None)

  const LOSE: O.Call := O.CallExpire(OPERATION, 1)

  const PROVE: O.Call := O.CallReconcile(OPERATION, EffectProvenAbsent, REVISION, None)

  function Prepared(): O.Ledger { O.Put(O.EMPTY, OPERATION, CreatedOperation()) }

  function Proven(): O.Ledger { O.Step(O.Step(O.Step(Prepared(), ATTEMPT).state, LOSE).state, PROVE).state }

  lemma OperationIsProvenAbsent()
    ensures O.Step(O.EMPTY, PREPARE).state == Prepared()
    ensures CurrentAbsence(Proven(), OPERATION, REVISION)
    ensures |Proven().evidence| == 1
  {
    NamesValid();
    ScopeValid();
    var begun := O.Step(Prepared(), ATTEMPT).state;
    assert begun.operations[OPERATION].state.Attempting? && begun.evidence == map[];
    var lost := O.Step(begun, LOSE).state;
    assert lost.operations[OPERATION].state.OperationAmbiguous? && lost.operations[OPERATION].attemptGeneration == 1;
    assert Proven().evidence == map[(OPERATION, REVISION) := Proven().evidence[(OPERATION, REVISION)]];
  }

  /** The message is admitted, claimed, bound to the operation, and its claim lapses. */
  const ADMIT: I.Call := I.CallAdmit(MESSAGE, EVIDENCE)

  const CLAIM: I.Call := I.CallClaim(MESSAGE, "e", Some(MEANS.admission), 1, PROFILE)

  const BIND: I.Call := I.CallUnder(I.ExecutorClaim(MESSAGE, "e", 1, 1, MEANS.admission), I.Bind(OPERATION), 0)

  const LAPSE: I.Call := I.CallExpire(MESSAGE, 1)

  function Claimed(port: SnapshotPort): I.Ledger { I.Step(I.Step(I.EMPTY, ADMIT, port).state, CLAIM, port).state }

  function Lapsed(port: SnapshotPort): I.Ledger { I.Step(I.Step(Claimed(port), BIND, port).state, LAPSE, port).state }

  lemma ReceiptIsClaimed(port: SnapshotPort)
    ensures MESSAGE.Key() in Claimed(port).receipts
    ensures Claimed(port).receipts[MESSAGE.Key()]
         == I.Begin(I.NewReceipt(MESSAGE, EVIDENCE), "e", 1, MEANS.admission)
  {
    MeansSuffice();
    ScopeValid();
  }

  lemma ReceiptIsBound()
    ensures var l := Lapsed(O.Port(Prepared()));
            && MESSAGE.Key() in l.receipts
            && var r := l.receipts[MESSAGE.Key()];
               && r.identity == MESSAGE && r.executionGeneration == 1
               && r.operationId == Some(OPERATION) && r.state.ReconciliationRequired?
  {
    var port := O.Port(Prepared());
    NamesValid();
    ScopeValid();
    ReceiptIsClaimed(port);
    assert port(OPERATION).Some? && SnapshotWellFormed(port(OPERATION).value);
    var bound := I.Step(Claimed(port), BIND, port).state;
    assert bound.receipts[MESSAGE.Key()].operationId == Some(OPERATION);
  }

  function Bound(): J.World { J.World(Prepared(), Lapsed(O.Port(Prepared()))) }

  lemma BoundReached()
    ensures J.Run(J.World(Prepared(), I.EMPTY), [J.OnInbox(ADMIT), J.OnInbox(CLAIM), J.OnInbox(BIND)]
                  + [J.OnInbox(LAPSE)]) == Bound()
  {
    var w, c := J.World(Prepared(), I.EMPTY), J.OnInbox(LAPSE);
    var b := [J.OnInbox(ADMIT), J.OnInbox(CLAIM), J.OnInbox(BIND)];
    J.RunAppend(w, b, [c]);
    ThreeSteps(w, b[0], b[1], b[2]);
    OneStep(J.Run(w, b), c);
  }

  lemma ReadyReached()
    ensures J.Run(Bound(), [J.OnOperations(ATTEMPT), J.OnOperations(LOSE), J.OnOperations(PROVE)])
         == J.World(Proven(), Bound().inbox)
  {
    ThreeSteps(Bound(), J.OnOperations(ATTEMPT), J.OnOperations(LOSE), J.OnOperations(PROVE));
  }

  /** All of it, up to the first re-admission. */
  function Prelude(): seq<J.Call> {
    [J.OnOperations(PREPARE)]
    + ([J.OnInbox(ADMIT), J.OnInbox(CLAIM), J.OnInbox(BIND)] + [J.OnInbox(LAPSE)])
    + [J.OnOperations(ATTEMPT), J.OnOperations(LOSE), J.OnOperations(PROVE)]
  }

  function FirstReadmission(): seq<J.Call> { Prelude() + [J.OnInbox(I.CallRetry(MESSAGE))] }

  lemma PreludeReached()
    ensures J.Run(J.START, Prelude()) == J.World(Proven(), Bound().inbox)
  {
    var a, b := [J.OnOperations(PREPARE)], [J.OnInbox(ADMIT), J.OnInbox(CLAIM), J.OnInbox(BIND)] + [J.OnInbox(LAPSE)];
    var c := [J.OnOperations(ATTEMPT), J.OnOperations(LOSE), J.OnOperations(PROVE)];
    J.RunAppend(J.START, a + b, c);
    J.RunAppend(J.START, a, b);
    OneStep(J.START, J.OnOperations(PREPARE));
    OperationIsProvenAbsent();
    BoundReached();
    ReadyReached();
  }

  lemma FirstReadmissionReached()
    ensures ReadyAfter(FirstReadmission(), MESSAGE, OPERATION, REVISION)
    ensures Operations(FirstReadmission()) == Proven()
    ensures Generation(FirstReadmission(), MESSAGE.Key()) == 1
  {
    PreludeReached();
    J.RunAppend(J.START, Prelude(), [J.OnInbox(I.CallRetry(MESSAGE))]);
    OneStep(J.Run(J.START, Prelude()), J.OnInbox(I.CallRetry(MESSAGE)));
    ReceiptIsBound();
    OperationIsProvenAbsent();
    J.RunKeepsInv(J.START, Prelude());
    RetryReadmits(J.Run(J.START, Prelude()), MESSAGE.Key(), OPERATION, REVISION);
  }

  lemma FirstReadmissionWellFormed()
    ensures J.WellFormed(FirstReadmission())
  {
    ScopeValid();
    assert J.WellFormed([J.OnOperations(PREPARE)]);
    assert J.WellFormed([J.OnInbox(ADMIT), J.OnInbox(CLAIM), J.OnInbox(BIND)] + [J.OnInbox(LAPSE)]);
    assert J.WellFormed([J.OnOperations(ATTEMPT), J.OnOperations(LOSE), J.OnOperations(PROVE)]);
    assert J.WellFormed(Prelude());
  }

  /** There are runs in which a single stored record stands behind any number of executions of one receipt. */
  lemma OneRecordManyExecutions(n: nat)
    ensures exists calls ::
              && J.WellFormed(calls)
              && ReadyAfter(calls, MESSAGE, OPERATION, REVISION)
              && |Operations(calls).evidence| == 1
              && Generation(calls, MESSAGE.Key()) == n + 1
  {
    FirstReadmissionReached();
    OperationIsProvenAbsent();
    MeansSuffice();
    AbsenceIsReusable(FirstReadmission(), MESSAGE, OPERATION, REVISION, MEANS, n);
    ScopeValid();
    RoundsWellFormed(MESSAGE, MEANS, n);
    FirstReadmissionWellFormed();
  }

  // ----- A completed receipt that is opened again -----

  const COMPLETE: I.Call :=
    I.CallUnder(I.ExecutorClaim(MESSAGE, "e", 1, 1, MEANS.admission), I.CompleteLocal(RESULT), 0)

  const DISPUTE: I.Call := I.CallAdmit(MESSAGE, Incomparable(EVIDENCE))

  /** The run admit, claim, complete, admit: a completed receipt goes back to reconciliation and keeps its result. */
  lemma CompletedIsReopened(port: SnapshotPort)
    ensures J.WellFormed([J.OnInbox(ADMIT), J.OnInbox(CLAIM), J.OnInbox(COMPLETE), J.OnInbox(DISPUTE)])
    ensures var completed := I.Step(Claimed(port), COMPLETE, port).state;
            var disputed := I.Step(completed, DISPUTE, port).state;
            && MESSAGE.Key() in completed.receipts && completed.receipts[MESSAGE.Key()].state.Completed?
            && MESSAGE.Key() in disputed.receipts
            && disputed.receipts[MESSAGE.Key()].state.ReconciliationRequired?
            && disputed.receipts[MESSAGE.Key()].resultLink == Some(RESULT)
  {
    ScopeValid();
    ReceiptIsClaimed(port);
    var completed := I.Step(Claimed(port), COMPLETE, port).state;
    assert completed.receipts[MESSAGE.Key()].state.Completed?;
  }
}
