/**
 What the inbox keeps whatever its operation authority answers: one receipt moves at a time by one
 of a few transitions, failing calls write nothing but a lapsed lease, retired claims stay retired,
 and redeliveries leave no trace.
 */
module InboxProofs {
  import opened Foundation
  import opened AsyncModel
  import opened InboxSpec
  import opened Leases

  // ----- One call moves one receipt -----

  /** The part of a transition that never touches results, operations or generations. */
  ghost predicate SameHistory(r: Receipt, r': Receipt) {
    && r'.executionGeneration == r.executionGeneration
    && r'.resultLink == r.resultLink
    && r'.operationId == r.operationId
  }

  ghost predicate Suspended(r: Receipt, r': Receipt) {
    && SameHistory(r, r')
    && (r'.state.Quarantined? || r'.state.ReconciliationRequired? || r'.state.Failed?)
    && r'.executorId.None? && r'.claimExpiresAt.None? && r'.executionAdmission.None?
  }

  ghost predicate Begun(r: Receipt, r': Receipt, answer: Result<Answer>) {
    && r.state.Admitted?
    && answer.Ok? && answer.value.Claimed?
    && var c := answer.value.claim;
       && c.identity == r.identity
       && c.executionGeneration == r.executionGeneration + 1
       && c.executionAdmission.current
       && c.executionAdmission.request == ClaimRequest(r.identity, c.executionAdmission.request.runtimeProfileId)
       && c.executionAdmission.observedAt < c.claimExpiresAt
       && r' == Begin(r, c.executorId, c.claimExpiresAt, c.executionAdmission)
  }

  ghost predicate BoundTo(r: Receipt, r': Receipt, port: SnapshotPort) {
    && r.state.Processing? && r'.operationId.Some?
    && r' == r.(operationId := r'.operationId)
    && (r.operationId.Some? ==> r'.operationId == r.operationId)
    && SnapshotFor(r, r'.operationId.value, port).Ok?
  }

  /** Completion: locally while no operation is bound, otherwise only with the outcome the operation has. */
  ghost predicate Finished(r: Receipt, r': Receipt, port: SnapshotPort) {
    && (r.state.Processing? || (r.state.ReconciliationRequired? && r.operationId.Some?))
    && r'.state.Completed? && r'.resultLink.Some?
    && r'.executionGeneration == r.executionGeneration && r'.operationId == r.operationId
    && (r.state.Processing? ==> r'.executorId.None? && r'.claimExpiresAt.None?)
    && (r.state.ReconciliationRequired? ==> r'.executorId == r.executorId && r'.claimExpiresAt == r.claimExpiresAt)
    && (r.operationId.Some? ==>
          var s := SnapshotFor(r, r.operationId.value, port);
          s.Ok? && s.value.state.OperationCompleted? && s.value.outcome == r'.resultLink)
  }

  ghost predicate Readmitted(r: Receipt, r': Receipt, port: SnapshotPort) {
    && r.state.ReconciliationRequired? && r.operationId.Some?
    && var s := SnapshotFor(r, r.operationId.value, port);
       && s.Ok? && s.value.state.Prepared? && s.value.resolution == Some(EffectProvenAbsent) && s.value.revision.Some?
       && r' == r.(state := Admitted, terminalReason := None, revision := s.value.revision)
  }

  ghost predicate Transition(r: Receipt, r': Receipt, answer: Result<Answer>, port: SnapshotPort) {
    && r'.identity == r.identity && r'.comparisonEvidence == r.comparisonEvidence
    && (if answer.Ok? && answer.value.Claimed? then Begun(r, r', answer)
        else r' == r || Suspended(r, r') || BoundTo(r, r', port) || Finished(r, r', port) || Readmitted(r, r', port))
  }

  function Addressed(c: Call): Key {
    if c.CallUnder? then c.claim.identity.Key() else c.identity.Key()
  }

  ghost predicate LedgerStep(l: Ledger, c: Call, port: SnapshotPort, l': Ledger, answer: Result<Answer>) {
    var key := Addressed(c);
    && (answer.Ok? && answer.value.Claimed? ==> answer.value.claim.identity.Key() == key)
    && if key in l.receipts then
         && key in l'.receipts
         && Transition(l.receipts[key], l'.receipts[key], answer, port)
         && l'.receipts == l.receipts[key := l'.receipts[key]]
       else
         && !(answer.Ok? && answer.value.Claimed?)
         && (l' == l
             || (c.CallAdmit? && l'.receipts == l.receipts[key := NewReceipt(c.identity, c.evidence)]))
  }

  /** Every receipt sits under its own key. */
  ghost predicate Keyed(l: Ledger) {
    forall key | key in l.receipts :: l.receipts[key].identity.Key() == key
  }

  lemma AdmitIsLedgerStep(l: Ledger, c: Call, port: SnapshotPort)
    requires c.CallAdmit?
    ensures LedgerStep(l, c, port, Step(l, c, port).state, Step(l, c, port).answer)
  {
  }

  lemma ClaimIsLedgerStep(l: Ledger, c: Call, port: SnapshotPort)
    requires c.CallClaim?
    ensures LedgerStep(l, c, port, Step(l, c, port).state, Step(l, c, port).answer)
  {
  }

  lemma ApplyIsTransition(r: Receipt, action: ClaimAction, port: SnapshotPort)
    requires r.state.Processing? && Apply(r, action, port).Ok?
    ensures Transition(r, Apply(r, action, port).value, Ok(Done), port)
  {
  }

  lemma UnderIsLedgerStep(l: Ledger, c: Call, port: SnapshotPort)
    requires c.CallUnder?
    ensures LedgerStep(l, c, port, Step(l, c, port).state, Step(l, c, port).answer)
  {
    var found := Require(l, c.claim.identity);
    if found.Ok? {
      var r := LapseAt(found.value, c.now);
      if HeldBy(r, c.claim) && Apply(r, c.action, port).Ok? {
        ApplyIsTransition(r, c.action, port);
      }
    }
  }

  lemma StepIsLedgerStep(l: Ledger, c: Call, port: SnapshotPort)
    ensures LedgerStep(l, c, port, Step(l, c, port).state, Step(l, c, port).answer)
  {
    match c
    case CallAdmit(_, _) => AdmitIsLedgerStep(l, c, port);
    case CallClaim(_, _, _, _, _) => ClaimIsLedgerStep(l, c, port);
    case CallExpire(_, _) =>
    case CallUnder(_, _, _) => UnderIsLedgerStep(l, c, port);
    case CallRetry(_) =>
    case CallConfirm(_, _, _) =>
  }

  // ----- The shape of a receipt -----

  /** A receipt being executed has an executor, a lease and an admission for exactly its own message. */
  ghost predicate ReceiptSound(r: Receipt) {
    && (r.state.Processing? <==> r.executorId.Some?)
    && (r.state.Processing? <==> r.claimExpiresAt.Some?)
    && (r.state.Processing? ==>
          && r.executionGeneration >= 1
          && r.executionAdmission.Some?
          && var admission := r.executionAdmission.value;
             && admission.current
             && admission.request == ClaimRequest(r.identity, admission.request.runtimeProfileId)
             && admission.observedAt < r.claimExpiresAt.value)
  }

  ghost predicate Inv(l: Ledger) {
    Keyed(l) && forall key | key in l.receipts :: ReceiptSound(l.receipts[key])
  }

  lemma LedgerStepKeepsInv(l: Ledger, c: Call, port: SnapshotPort, l': Ledger, answer: Result<Answer>)
    requires Inv(l) && LedgerStep(l, c, port, l', answer)
    ensures Inv(l')
  {
    var key := Addressed(c);
    if key in l.receipts {
      assert ReceiptSound(l.receipts[key]);
      assert ReceiptSound(l'.receipts[key]);
    }
    forall k | k in l'.receipts && k != key ensures ReceiptSound(l'.receipts[k]) {
      assert l'.receipts[k] == l.receipts[k];
    }
  }

  lemma StepKeepsInv(l: Ledger, c: Call, port: SnapshotPort)
    requires Inv(l)
    ensures Inv(Step(l, c, port).state)
  {
    StepIsLedgerStep(l, c, port);
    LedgerStepKeepsInv(l, c, port, Step(l, c, port).state, Step(l, c, port).answer);
  }

  // ----- Failing calls -----

  /** The only trace a failing call may leave: the addressed lease, if it is over at the supplied time. */
  function FailureFrame(l: Ledger, c: Call): Ledger {
    if c.CallUnder? && ActionInputValid(c.action) && Require(l, c.claim.identity).Ok? then
      Put(l, LapseAt(Require(l, c.claim.identity).value, c.now))
    else l
  }

  lemma FailingCallFrame(l: Ledger, c: Call, port: SnapshotPort)
    requires Inv(l) && Step(l, c, port).answer.Err?
    ensures Step(l, c, port).state == FailureFrame(l, c)
    ensures forall key | key in l.receipts ::
              var r, r' := l.receipts[key], Step(l, c, port).state.receipts[key];
              r' == r || (c.CallUnder? && key == Addressed(c) && LeaseOver(r, c.now) && r' == Block(r, LEASE_EXPIRED))
  {
    match c
    case CallAdmit(_, _) =>
    case CallClaim(_, _, _, _, _) =>
    case CallExpire(_, _) =>
    case CallUnder(_, _, _) =>
    case CallRetry(_) =>
    case CallConfirm(_, _, _) =>
  }

  // ----- Receipts that look finished -----

  predicate LooksFinished(r: Receipt) {
    r.state.Completed? || r.state.Failed? || r.state.Quarantined?
  }

  /** A delivery under the receipt's key that conflicts with it or cannot be compared with it. */
  predicate Disputes(c: Call, r: Receipt) {
    && c.CallAdmit? && c.identity.Key() == r.identity.Key()
    && (c.identity != r.identity || !r.comparisonEvidence.RelationTo(c.evidence).Equivalent?)
  }

  /** Where a dispute leads, from any state: only incomparable evidence for the same identity can be reconciled. */
  function DisputedState(c: Call, r: Receipt): InboxState
    requires c.CallAdmit?
  {
    if c.identity == r.identity && r.comparisonEvidence.RelationTo(c.evidence).Unknown? then ReconciliationRequired
    else Quarantined
  }

  lemma AdmitOnFinished(l: Ledger, c: Call, port: SnapshotPort, key: Key)
    requires Inv(l) && key in l.receipts && LooksFinished(l.receipts[key]) && c.CallAdmit?
    ensures key in Step(l, c, port).state.receipts
    ensures var r, r' := l.receipts[key], Step(l, c, port).state.receipts[key];
            if Disputes(c, r) then Suspended(r, r') && r'.state == DisputedState(c, r) else r' == r
  {
  }

  lemma UnderOnFinished(l: Ledger, c: Call, port: SnapshotPort, key: Key)
    requires Inv(l) && key in l.receipts && LooksFinished(l.receipts[key]) && c.CallUnder?
    ensures key in Step(l, c, port).state.receipts && Step(l, c, port).state.receipts[key] == l.receipts[key]
  {
  }

  /**
   Completed, failed and quarantined receipts are not final, but nothing changes them except a delivery that
   disputes them; and such a delivery always suspends them in the disputed state, with their result untouched.
   */
  lemma FinishedChangesOnlyByDispute(l: Ledger, c: Call, port: SnapshotPort, key: Key)
    requires Inv(l) && key in l.receipts && LooksFinished(l.receipts[key])
    ensures key in Step(l, c, port).state.receipts
    ensures var r, r' := l.receipts[key], Step(l, c, port).state.receipts[key];
            if Disputes(c, r) then Suspended(r, r') && r'.state == DisputedState(c, r) else r' == r
  {
    match c
    case CallAdmit(_, _) => AdmitOnFinished(l, c, port, key);
    case CallClaim(_, _, _, _, _) =>
    case CallExpire(_, _) =>
    case CallUnder(_, _, _) => UnderOnFinished(l, c, port, key);
    case CallRetry(_) =>
    case CallConfirm(_, _, _) =>
  }

  /** The input that re-opens any receipt, whatever its state: the same identity with incomparable evidence. */
  lemma IncomparableEvidenceBlocks(l: Ledger, key: Key, evidence: ComparisonEvidence)
    requires Keyed(l) && key in l.receipts
    requires l.receipts[key].comparisonEvidence.RelationTo(evidence).Unknown?
    ensures var r, o := l.receipts[key], Admit(l, l.receipts[key].identity, evidence);
            && o.answer == Ok(BlockedByReconciliation)
            && key in o.state.receipts
            && Suspended(r, o.state.receipts[key]) && o.state.receipts[key].state.ReconciliationRequired?
  {
  }

  // ----- Runs -----

  /** A call together with the operation authority it meets. */
  datatype Event = Event(call: Call, port: SnapshotPort)

  function Run(l: Ledger, events: seq<Event>): Ledger
    decreases |events|
  {
    if events == [] then l else Run(Step(l, events[0].call, events[0].port).state, events[1..])
  }

  // ----- Retired claims -----

  function SlotOf(r: Receipt): Slot<ExecutorClaim> {
    if r.state.Processing? && r.executorId.Some? && r.claimExpiresAt.Some? && r.executionAdmission.Some? then
      Held(r.executionGeneration,
           ExecutorClaim(r.identity, r.executorId.value, r.executionGeneration, r.claimExpiresAt.value,
                         r.executionAdmission.value))
    else Idle(r.executionGeneration)
  }

  function Slots(l: Ledger): map<Key, Slot<ExecutorClaim>> {
    map key | key in l.receipts :: SlotOf(l.receipts[key])
  }

  function GrantOf(answer: Result<Answer>): Option<Grant<Key, ExecutorClaim>> {
    if answer.Ok? && answer.value.Claimed? then
      var c := answer.value.claim;
      Some(Grant(c.identity.Key(), c.executionGeneration, c))
    else None
  }

  /** A ledger together with the claims it has handed out so far, oldest first. */
  datatype Traced = Traced(ledger: Ledger, grants: seq<Grant<Key, ExecutorClaim>>)

  function TraceStep(t: Traced, e: Event): Traced {
    var o := Step(t.ledger, e.call, e.port);
    Traced(o.state, t.grants + AsSeq(GrantOf(o.answer)))
  }

  function Trace(t: Traced, events: seq<Event>): Traced
    decreases |events|
  {
    if events == [] then t else Trace(TraceStep(t, events[0]), events[1..])
  }

  const FRESH := Traced(EMPTY, [])

  lemma TransitionIsSlotStep(r: Receipt, r': Receipt, answer: Result<Answer>, port: SnapshotPort)
    requires ReceiptSound(r) && Transition(r, r', answer, port)
    requires !(answer.Ok? && answer.value.Claimed?)
    requires ReceiptSound(r')
    ensures BoundTo(r, r', port) || SlotOf(r') == SlotOf(r) || SlotOf(r') == Idle(r.executionGeneration)
    ensures BoundTo(r, r', port) ==> SlotOf(r') == SlotOf(r)
  {
  }

  lemma LedgerStepIsTableStep(l: Ledger, c: Call, port: SnapshotPort, l': Ledger, answer: Result<Answer>)
    requires Inv(l) && Inv(l') && LedgerStep(l, c, port, l', answer)
    ensures TableStep(Slots(l), Slots(l'), GrantOf(answer))
  {
    var granted := GrantOf(answer);
    forall key | key in l.receipts
      ensures key in l'.receipts
      ensures SlotStep(SlotOf(l.receipts[key]), SlotOf(l'.receipts[key]),
                       if granted.Some? && granted.value.key == key then Some(granted.value.claim) else None)
    {
      if key == Addressed(c) {
        assert ReceiptSound(l.receipts[key]) && ReceiptSound(l'.receipts[key]);
        if granted.None? {
          TransitionIsSlotStep(l.receipts[key], l'.receipts[key], answer, port);
        }
      } else {
        assert l'.receipts[key] == l.receipts[key];
      }
    }
  }

  ghost predicate Tracked(t: Traced) {
    && Inv(t.ledger)
    && History(Slots(t.ledger), t.grants)
    && forall i | 0 <= i < |t.grants| ::
         && t.grants[i].claim.identity.Key() == t.grants[i].key
         && t.grants[i].claim.executionGeneration == t.grants[i].generation
         && t.grants[i].key in t.ledger.receipts
         && t.ledger.receipts[t.grants[i].key].identity == t.grants[i].claim.identity
  }

  lemma StepKeepsTracked(t: Traced, e: Event)
    requires Tracked(t)
    ensures Tracked(TraceStep(t, e))
  {
    var l, o := t.ledger, Step(t.ledger, e.call, e.port);
    StepIsLedgerStep(l, e.call, e.port);
    LedgerStepKeepsInv(l, e.call, e.port, o.state, o.answer);
    LedgerStepIsTableStep(l, e.call, e.port, o.state, o.answer);
    HistoryStep(Slots(l), Slots(o.state), t.grants, GrantOf(o.answer));
    LedgerStepKeepsIdentities(l, e.call, e.port, o.state, o.answer);
  }

  lemma {:induction false} TraceKeepsTracked(t: Traced, events: seq<Event>)
    requires Tracked(t)
    ensures Tracked(Trace(t, events))
    decreases |events|
  {
    if events != [] {
      StepKeepsTracked(t, events[0]);
      TraceKeepsTracked(TraceStep(t, events[0]), events[1..]);
    }
  }

  /** First-written identity and comparison evidence never change. */
  lemma LedgerStepKeepsIdentities(l: Ledger, c: Call, port: SnapshotPort, l': Ledger, answer: Result<Answer>)
    requires LedgerStep(l, c, port, l', answer)
    ensures forall key | key in l.receipts ::
              && key in l'.receipts
              && l'.receipts[key].identity == l.receipts[key].identity
              && l'.receipts[key].comparisonEvidence == l.receipts[key].comparisonEvidence
  {
    forall key | key in l.receipts
      ensures key in l'.receipts
      ensures l'.receipts[key].identity == l.receipts[key].identity
      ensures l'.receipts[key].comparisonEvidence == l.receipts[key].comparisonEvidence
    {
      assert key != Addressed(c) ==> l'.receipts[key] == l.receipts[key];
    }
  }

  lemma {:induction false} RunKeepsIdentities(l: Ledger, events: seq<Event>, key: Key)
    requires key in l.receipts
    ensures key in Run(l, events).receipts
    ensures Run(l, events).receipts[key].identity == l.receipts[key].identity
    ensures Run(l, events).receipts[key].comparisonEvidence == l.receipts[key].comparisonEvidence
    decreases |events|
  {
    if events != [] {
      var e, o := events[0], Step(l, events[0].call, events[0].port);
      StepIsLedgerStep(l, e.call, e.port);
      LedgerStepKeepsIdentities(l, e.call, e.port, o.state, o.answer);
      RunKeepsIdentities(o.state, events[1..], key);
    }
  }

  lemma StepKeepsRetired(l: Ledger, e: Event, key: Key, g: nat)
    requires Inv(l) && key in l.receipts && Retired(SlotOf(l.receipts[key]), g)
    ensures var l' := Step(l, e.call, e.port).state;
            Inv(l') && key in l'.receipts && Retired(SlotOf(l'.receipts[key]), g)
  {
    var o := Step(l, e.call, e.port);
    StepIsLedgerStep(l, e.call, e.port);
    LedgerStepKeepsInv(l, e.call, e.port, o.state, o.answer);
    LedgerStepIsTableStep(l, e.call, e.port, o.state, o.answer);
    assert Slots(l)[key] == SlotOf(l.receipts[key]) && Slots(o.state)[key] == SlotOf(o.state.receipts[key]);
  }

  lemma {:induction false} RunKeepsRetired(l: Ledger, events: seq<Event>, key: Key, g: nat)
    requires Inv(l) && key in l.receipts && Retired(SlotOf(l.receipts[key]), g)
    ensures key in Run(l, events).receipts && Retired(SlotOf(Run(l, events).receipts[key]), g)
    decreases |events|
  {
    if events != [] {
      StepKeepsRetired(l, events[0], key, g);
      RunKeepsRetired(Step(l, events[0].call, events[0].port).state, events[1..], key, g);
    }
  }

  /** Would the inbox let this claim act at this time? */
  predicate Accepts(l: Ledger, c: ExecutorClaim, now: int) {
    Require(l, c.identity).Ok? && HeldBy(LapseAt(l.receipts[c.identity.Key()], now), c)
  }

  /** Generations handed out for one message strictly increase, and at most one of its claims is acceptable. */
  lemma OneLiveClaim(events: seq<Event>, i: nat, j: nat, now: int, now': int)
    requires i < j < |Trace(FRESH, events).grants|
    requires Trace(FRESH, events).grants[i].key == Trace(FRESH, events).grants[j].key
    ensures var t := Trace(FRESH, events);
            var a, b := t.grants[i].claim, t.grants[j].claim;
            && a.executionGeneration < b.executionGeneration
            && !(Accepts(t.ledger, a, now) && Accepts(t.ledger, b, now'))
  {
    TraceKeepsTracked(FRESH, events);
  }

  lemma RefusalRetires(t: Traced, i: nat, action: ClaimAction, now: int, port: SnapshotPort)
    requires Tracked(t) && i < |t.grants| && ActionInputValid(action)
    requires !Accepts(t.ledger, t.grants[i].claim, now)
    ensures var c := t.grants[i].claim;
            var key := c.identity.Key();
            var used := UnderClaim(t.ledger, c, action, now, port).state;
            && used == Step(t.ledger, CallUnder(c, action, now), port).state
            && UnderClaim(t.ledger, c, action, now, port).answer == Err(InvalidTransition)
            && key in used.receipts && Retired(SlotOf(used.receipts[key]), c.executionGeneration)
  {
    assert ReceiptSound(t.ledger.receipts[t.grants[i].key]);
  }

  /** An issued claim that is refused once is refused for ever, whatever clock values and calls follow. */
  lemma RefusedClaimStaysRefused(
    before: seq<Event>, i: nat, action: ClaimAction, now: int, port: SnapshotPort, later: seq<Event>, now': int)
    requires i < |Trace(FRESH, before).grants| && ActionInputValid(action)
    requires !Accepts(Trace(FRESH, before).ledger, Trace(FRESH, before).grants[i].claim, now)
    ensures var t := Trace(FRESH, before);
            var c := t.grants[i].claim;
            var o := UnderClaim(t.ledger, c, action, now, port);
            && o.answer == Err(InvalidTransition)
            && !Accepts(Run(o.state, later), c, now')
  {
    var t := Trace(FRESH, before);
    var c := t.grants[i].claim;
    TraceKeepsTracked(FRESH, before);
    RefusalRetires(t, i, action, now, port);
    StepKeepsInv(t.ledger, CallUnder(c, action, now), port);
    RunKeepsRetired(UnderClaim(t.ledger, c, action, now, port).state, later, c.identity.Key(), c.executionGeneration);
  }

  // ----- Redelivery -----

  lemma EquivalentIsEqual(a: ComparisonEvidence, b: ComparisonEvidence)
    ensures a.RelationTo(b).Equivalent? <==> a == b
    ensures a.RelationTo(b) == b.RelationTo(a)
  {
  }

  type Deliveries = map<Key, (ScopedMessageIdentity, ComparisonEvidence)>

  function DeliveriesOf(l: Ledger): Deliveries {
    map key | key in l.receipts :: (l.receipts[key].identity, l.receipts[key].comparisonEvidence)
  }

  /** An admit that repeats the first delivery under its key word for word. */
  predicate IsRedelivery(seen: Deliveries, c: Call) {
    c.CallAdmit? && c.identity.Key() in seen && seen[c.identity.Key()] == (c.identity, c.evidence)
  }

  /** What the calls alone, without any ledger, say about first deliveries. */
  function Seen(seen: Deliveries, c: Call): Deliveries {
    if c.CallAdmit? && c.identity.Key() !in seen then seen[c.identity.Key() := (c.identity, c.evidence)] else seen
  }

  function EraseRedeliveries(seen: Deliveries, events: seq<Event>): seq<Event>
    decreases |events|
  {
    if events == [] then []
    else
      (if IsRedelivery(seen, events[0].call) then [] else [events[0]])
      + EraseRedeliveries(Seen(seen, events[0].call), events[1..])
  }

  function Answers(l: Ledger, events: seq<Event>): seq<Result<Answer>>
    decreases |events|
  {
    if events == [] then []
    else
      var o := Step(l, events[0].call, events[0].port);
      [o.answer] + Answers(o.state, events[1..])
  }

  /** The answers of a run with those to redeliveries left out. */
  function KeptAnswers(l: Ledger, seen: Deliveries, events: seq<Event>): seq<Result<Answer>>
    decreases |events|
  {
    if events == [] then []
    else
      var o := Step(l, events[0].call, events[0].port);
      (if IsRedelivery(seen, events[0].call) then [] else [o.answer])
      + KeptAnswers(o.state, Seen(seen, events[0].call), events[1..])
  }

  lemma StepSees(l: Ledger, c: Call, port: SnapshotPort)
    ensures DeliveriesOf(Step(l, c, port).state) == Seen(DeliveriesOf(l), c)
    ensures IsRedelivery(DeliveriesOf(l), c) ==> Step(l, c, port).state == l
  {
    var l', answer := Step(l, c, port).state, Step(l, c, port).answer;
    StepIsLedgerStep(l, c, port);
    LedgerStepKeepsIdentities(l, c, port, l', answer);
    if IsRedelivery(DeliveriesOf(l), c) {
      assert l'.receipts == l.receipts;
    }
    assert c.CallAdmit? ==> c.identity.Key() in l'.receipts;
    assert DeliveriesOf(l').Keys == Seen(DeliveriesOf(l), c).Keys;
  }

  lemma {:induction false} ErasureIsInvisible(l: Ledger, events: seq<Event>)
    ensures Run(l, EraseRedeliveries(DeliveriesOf(l), events)) == Run(l, events)
    ensures Answers(l, EraseRedeliveries(DeliveriesOf(l), events)) == KeptAnswers(l, DeliveriesOf(l), events)
    decreases |events|
  {
    if events != [] {
      var e, seen := events[0], DeliveriesOf(l);
      var o := Step(l, e.call, e.port);
      StepSees(l, e.call, e.port);
      ErasureIsInvisible(o.state, events[1..]);
      var rest := EraseRedeliveries(Seen(seen, e.call), events[1..]);
      if IsRedelivery(seen, e.call) {
        assert EraseRedeliveries(seen, events) == rest;
      } else {
        assert EraseRedeliveries(seen, events) == [e] + rest;
        assert ([e] + rest)[1..] == rest;
      }
    }
  }

  /**
   Deleting every redelivery from a run, which the calls alone determine, changes neither the final
   ledger nor the answer to any remaining call.
   */
  lemma RedeliveryInsensitive(events: seq<Event>)
    ensures Run(EMPTY, EraseRedeliveries(map[], events)) == Run(EMPTY, events)
    ensures Answers(EMPTY, EraseRedeliveries(map[], events)) == KeptAnswers(EMPTY, map[], events)
  {
    assert DeliveriesOf(EMPTY) == map[];
    ErasureIsInvisible(EMPTY, events);
  }
}
