/**
 The outbox as a state machine over values: an append-only log of immutable messages with a
 dispatch state on top of every record.
 */
module OutboxSpec {
  import opened Foundation
  import opened AsyncModel

  datatype DispatchState = Pending | Claimed | Published | Quarantined

  /** `content` stands for all remaining immutable fields; they are only ever compared as a whole. */
  datatype LogicalMessage = LogicalMessage(
    producerMessageScope: string,
    messageId: string,
    comparisonEvidence: ComparisonEvidence,
    content: seq<bv8>)
  {
    function Identity(): (string, string) { (producerMessageScope, messageId) }
  }

  datatype PublicationReceipt = PublicationReceipt(receiptId: string, observedAt: int)

  datatype OutboxClaim = OutboxClaim(
    recordId: nat,
    ownerId: string,
    claimGeneration: nat,
    claimExpiresAt: int,
    message: LogicalMessage)

  datatype Entry = Entry(
    recordId: nat,
    message: LogicalMessage,
    state: DispatchState,
    claimOwner: Option<string>,
    claimGeneration: nat,
    claimExpiresAt: Option<int>,
    attemptCount: nat,
    lastErrorClass: Option<string>,
    publicationReceipt: Option<PublicationReceipt>)

  datatype Ledger = Ledger(nextId: nat, byId: map<nat, Entry>, byMessage: map<(string, string), nat>)

  const EMPTY := Ledger(1, map[], map[])

  const CLAIM_EXPIRED := "dispatcher_claim_expired_outcome_not_proven_absent"
  const PUBLICATION_AMBIGUOUS := "publication_outcome_ambiguous"

  function NewEntry(recordId: nat, message: LogicalMessage): Entry {
    Entry(recordId, message, Pending, None, 0, None, 0, None, None)
  }

  // ----- append_committed -----

  function Append(l: Ledger, message: LogicalMessage): Outcome<Ledger, nat> {
    if message.Identity() in l.byMessage then
      var existing := l.byMessage[message.Identity()];
      if existing !in l.byId then Outcome(l, Err(LookupFailure))
      else
        var original := l.byId[existing].message;
        if !original.comparisonEvidence.RelationTo(message.comparisonEvidence).Equivalent? || original != message then
          Outcome(l, Err(InvalidTransition))
        else Outcome(l, Ok(existing))
    else
      Outcome(Ledger(l.nextId + 1, l.byId[l.nextId := NewEntry(l.nextId, message)],
                     l.byMessage[message.Identity() := l.nextId]),
              Ok(l.nextId))
  }

  // ----- Expiry and claims -----

  /** Back to pending, without a holder. */
  function Release(e: Entry, errorClass: string): Entry {
    e.(state := Pending, claimOwner := None, claimExpiresAt := None, lastErrorClass := Some(errorClass))
  }

  predicate ClaimOver(e: Entry, now: int) {
    e.state.Claimed? && e.claimExpiresAt.Some? && e.claimExpiresAt.value <= now
  }

  function LapseAt(e: Entry, now: int): Entry {
    if ClaimOver(e, now) then Release(e, CLAIM_EXPIRED) else e
  }

  function ExpireClaims(l: Ledger, now: int): Ledger {
    l.(byId := map id | id in l.byId :: LapseAt(l.byId[id], now))
  }

  /** The record ids from `from` on that are pending, in ascending order. */
  function PendingFrom(l: Ledger, from: nat): (ids: seq<nat>)
    ensures forall i | 0 <= i < |ids| :: ids[i] in l.byId
    decreases l.nextId - from
  {
    if from >= l.nextId then []
    else if from in l.byId && l.byId[from].state.Pending? then [from] + PendingFrom(l, from + 1)
    else PendingFrom(l, from + 1)
  }

  function PendingIds(l: Ledger): seq<nat> { PendingFrom(l, 1) }

  function Grab(e: Entry, ownerId: string, expires: int): Entry {
    e.(state := Claimed, claimOwner := Some(ownerId), claimGeneration := e.claimGeneration + 1,
       claimExpiresAt := Some(expires), attemptCount := e.attemptCount + 1)
  }

  function Put(l: Ledger, id: nat, e: Entry): Ledger {
    l.(byId := l.byId[id := e])
  }

  function ClaimNext(l: Ledger, ownerId: string, now: int, expires: int): Outcome<Ledger, Option<OutboxClaim>> {
    if !ValidIdentifier(ownerId) || expires <= now then Outcome(l, Err(ValueError))
    else
      var l' := ExpireClaims(l, now);
      var id := FirstPending(l', 1);
      if id.None? then Outcome(l', Ok(None))
      else
        var e := Grab(l'.byId[id.value], ownerId, expires);
        Outcome(Put(l', id.value, e), Ok(Some(OutboxClaim(id.value, ownerId, e.claimGeneration, expires, e.message))))
  }

  function FirstPending(l: Ledger, from: nat): (id: Option<nat>)
    ensures id.Some? ==> id.value in l.byId
    decreases l.nextId - from
  {
    if from >= l.nextId then None
    else if from in l.byId && l.byId[from].state.Pending? then Some(from)
    else FirstPending(l, from + 1)
  }

  // ----- The calls made under a claim -----

  datatype ClaimAction =
    | Publish(receipt: PublicationReceipt)
    | ReportAmbiguous
    | Quarantine(errorClass: string)
    | ReleaseClaim(errorClass: string)

  predicate ActionInputValid(action: ClaimAction) {
    match action
    case Quarantine(errorClass) => ValidIdentifier(errorClass)
    case ReleaseClaim(errorClass) => ValidIdentifier(errorClass)
    case _ => true
  }

  predicate HeldBy(e: Entry, c: OutboxClaim) {
    && e.state.Claimed?
    && e.claimOwner == Some(c.ownerId)
    && e.claimGeneration == c.claimGeneration
    && e.claimExpiresAt == Some(c.claimExpiresAt)
  }

  function Apply(e: Entry, action: ClaimAction): Entry {
    match action
    case Publish(receipt) =>
      e.(state := Published, publicationReceipt := Some(receipt), claimOwner := None, claimExpiresAt := None,
         lastErrorClass := None)
    case ReportAmbiguous => Release(e, PUBLICATION_AMBIGUOUS)
    case Quarantine(errorClass) => Release(e, errorClass).(state := Quarantined)
    case ReleaseClaim(errorClass) => Release(e, errorClass)
  }

  function UnderClaim(l: Ledger, claim: OutboxClaim, action: ClaimAction, now: int): Outcome<Ledger, ()> {
    if !ActionInputValid(action) then Outcome(l, Err(ValueError))
    else
      var l', id := ExpireClaims(l, now), claim.recordId;
      if id !in l'.byId || !HeldBy(l'.byId[id], claim) then Outcome(l', Err(InvalidTransition))
      else Outcome(Put(l', id, Apply(l'.byId[id], action)), Ok(()))
  }

  // ----- pending_messages -----

  function PendingMessagesFrom(l: Ledger, from: nat): seq<LogicalMessage>
    decreases l.nextId - from
  {
    if from >= l.nextId then []
    else if from in l.byId && l.byId[from].state.Pending? then [l.byId[from].message] + PendingMessagesFrom(l, from + 1)
    else PendingMessagesFrom(l, from + 1)
  }

  function PendingMessages(l: Ledger, observedAt: Option<int>): Outcome<Ledger, seq<LogicalMessage>> {
    var l' := if observedAt.Some? then ExpireClaims(l, observedAt.value) else l;
    Outcome(l', Ok(PendingMessagesFrom(l', 1)))
  }

  // ----- Calls -----

  datatype Call =
    | CallAppend(message: LogicalMessage)
    | CallClaim(ownerId: string, now: int, expires: int)
    | CallUnder(claim: OutboxClaim, action: ClaimAction, now: int)
    | CallPending(observedAt: Option<int>)

  datatype Answer =
    | Done
    | Appended(recordId: nat)
    | ClaimIs(claim: Option<OutboxClaim>)
    | PendingAre(messages: seq<LogicalMessage>)

  function Lift<T>(o: Outcome<Ledger, T>, wrap: T -> Answer): Outcome<Ledger, Answer> {
    Outcome(o.state, if o.answer.Ok? then Ok(wrap(o.answer.value)) else Err(o.answer.error))
  }

  function Step(l: Ledger, c: Call): Outcome<Ledger, Answer> {
    match c
    case CallAppend(message) => Lift(Append(l, message), id => Appended(id))
    case CallClaim(owner, now, expires) => Lift(ClaimNext(l, owner, now, expires), x => ClaimIs(x))
    case CallUnder(claim, action, now) => Lift(UnderClaim(l, claim, action, now), _ => Done)
    case CallPending(observedAt) => Lift(PendingMessages(l, observedAt), x => PendingAre(x))
  }

  function Run(l: Ledger, calls: seq<Call>): Ledger
    decreases |calls|
  {
    if calls == [] then l else Run(Step(l, calls[0]).state, calls[1..])
  }
}
