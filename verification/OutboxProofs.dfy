/**
 What every run of the outbox keeps: the records are an append-only log with a faithful index, claims
 come in append order, expiry composes, end states are final and retired claims stay retired.
 */
module OutboxProofs {
  import opened Foundation
  import opened OutboxSpec
  import opened Leases

  // ----- The invariant -----

  ghost predicate EntrySound(e: Entry) {
    && (e.state.Claimed? <==> e.claimOwner.Some?)
    && (e.state.Claimed? <==> e.claimExpiresAt.Some?)
    && (e.state.Claimed? ==> e.claimGeneration >= 1)
    && e.claimGeneration == e.attemptCount
    && (e.state.Published? <==> e.publicationReceipt.Some?)
  }

  /** Record ids are exactly 1 .. nextId - 1. */
  ghost predicate TableSound(l: Ledger) {
    && l.nextId >= 1
    && (forall id: nat :: id in l.byId <==> 1 <= id < l.nextId)
    && (forall id | id in l.byId :: l.byId[id].recordId == id && EntrySound(l.byId[id]))
  }

  /** The identity index is the inverse of the record table. */
  ghost predicate IndexSound(l: Ledger) {
    && (forall m | m in l.byMessage :: l.byMessage[m] in l.byId && l.byId[l.byMessage[m]].message.Identity() == m)
    && (forall id | id in l.byId ::
          && l.byId[id].message.Identity() in l.byMessage
          && l.byMessage[l.byId[id].message.Identity()] == id)
  }

  ghost predicate Inv(l: Ledger) {
    TableSound(l) && IndexSound(l)
  }

  // ----- One call -----

  /** How one call may move an entry; `granted` is the claim it hands out for this very entry. */
  ghost predicate Transition(e: Entry, e': Entry, granted: Option<OutboxClaim>) {
    && e'.recordId == e.recordId && e'.message == e.message
    && if granted.Some? then
         && !e.state.Published? && !e.state.Quarantined?
         && e'.state.Claimed?
         && e'.claimGeneration == e.claimGeneration + 1 && e'.attemptCount == e.attemptCount + 1
         && e'.publicationReceipt == e.publicationReceipt
         && HeldBy(e', granted.value)
         && granted.value.recordId == e.recordId && granted.value.message == e.message
       else
         e' == e || (e.state.Claimed? && !e'.state.Claimed? && e'.claimOwner.None? && e'.claimExpiresAt.None?
                     && e'.claimGeneration == e.claimGeneration && e'.attemptCount == e.attemptCount
                     && if e'.state.Published? then e'.publicationReceipt.Some?
                        else e'.publicationReceipt == e.publicationReceipt)
  }

  function GrantedClaim(answer: Result<Answer>): Option<OutboxClaim> {
    if answer.Ok? && answer.value.ClaimIs? then answer.value.claim else None
  }

  function GrantedFor(answer: Result<Answer>, id: nat): Option<OutboxClaim> {
    var c := GrantedClaim(answer);
    if c.Some? && c.value.recordId == id then c else None
  }

  ghost predicate LedgerStep(l: Ledger, c: Call, l': Ledger, answer: Result<Answer>) {
    && (forall id | id in l.byId :: id in l'.byId && Transition(l.byId[id], l'.byId[id], GrantedFor(answer, id)))
    && (GrantedClaim(answer).Some? ==> GrantedClaim(answer).value.recordId in l.byId)
    && if c.CallAppend? && c.message.Identity() !in l.byMessage then
         && l'.nextId == l.nextId + 1
         && l'.byId.Keys == l.byId.Keys + {l.nextId}
         && l'.byId[l.nextId] == NewEntry(l.nextId, c.message)
         && l'.byMessage == l.byMessage[c.message.Identity() := l.nextId]
       else
         && l'.nextId == l.nextId
         && l'.byId.Keys == l.byId.Keys
         && l'.byMessage == l.byMessage
  }

  lemma FirstPendingIsPending(l: Ledger, from: nat)
    ensures var id := FirstPending(l, from);
            id.Some? ==> from <= id.value && id.value in l.byId && l.byId[id.value].state.Pending?
    decreases l.nextId - from
  {
  }

  lemma LapseThenGrab(e: Entry, now: int, ownerId: string, expires: int)
    requires EntrySound(e)
    ensures Transition(e, LapseAt(e, now), None)
    ensures LapseAt(e, now).state.Pending? ==>
              var e' := Grab(LapseAt(e, now), ownerId, expires);
              Transition(e, e', Some(OutboxClaim(e.recordId, ownerId, e'.claimGeneration, expires, e.message)))
  {
  }

  lemma ClaimIsLedgerStep(l: Ledger, c: Call)
    requires TableSound(l) && c.CallClaim?
    ensures LedgerStep(l, c, Step(l, c).state, Step(l, c).answer)
  {
    var l', answer := Step(l, c).state, Step(l, c).answer;
    FirstPendingIsPending(ExpireClaims(l, c.now), 1);
    forall id | id in l.byId
      ensures id in l'.byId && Transition(l.byId[id], l'.byId[id], GrantedFor(answer, id))
    {
      LapseThenGrab(l.byId[id], c.now, c.ownerId, c.expires);
    }
  }

  lemma UnderIsLedgerStep(l: Ledger, c: Call)
    requires TableSound(l) && c.CallUnder?
    ensures LedgerStep(l, c, Step(l, c).state, Step(l, c).answer)
  {
  }

  lemma StepIsLedgerStep(l: Ledger, c: Call)
    requires TableSound(l)
    ensures LedgerStep(l, c, Step(l, c).state, Step(l, c).answer)
  {
    match c
    case CallAppend(_) => assert l.nextId !in l.byId;
    case CallClaim(_, _, _) => ClaimIsLedgerStep(l, c);
    case CallUnder(_, _, _) => UnderIsLedgerStep(l, c);
    case CallPending(_) =>
  }

  lemma LedgerStepKeepsTable(l: Ledger, c: Call, l': Ledger, answer: Result<Answer>)
    requires TableSound(l) && LedgerStep(l, c, l', answer)
    ensures TableSound(l')
  {
    forall id | id in l'.byId ensures l'.byId[id].recordId == id && EntrySound(l'.byId[id]) {
      if id in l.byId {
        assert Transition(l.byId[id], l'.byId[id], GrantedFor(answer, id)) && EntrySound(l.byId[id]);
      }
    }
  }

  lemma LedgerStepKeepsIndex(l: Ledger, c: Call, l': Ledger, answer: Result<Answer>)
    requires Inv(l) && LedgerStep(l, c, l', answer)
    ensures IndexSound(l')
  {
    assert l.nextId !in l.byId;
    forall id | id in l.byId ensures l'.byId[id].message == l.byId[id].message {
      assert Transition(l.byId[id], l'.byId[id], GrantedFor(answer, id));
    }
  }

  lemma StepKeepsInv(l: Ledger, c: Call)
    requires Inv(l)
    ensures Inv(Step(l, c).state)
  {
    StepIsLedgerStep(l, c);
    LedgerStepKeepsTable(l, c, Step(l, c).state, Step(l, c).answer);
    LedgerStepKeepsIndex(l, c, Step(l, c).state, Step(l, c).answer);
  }

  lemma ExpireKeepsInv(l: Ledger, now: int)
    requires Inv(l)
    ensures Inv(ExpireClaims(l, now))
  {
    StepKeepsInv(l, CallPending(Some(now)));
    assert ExpireClaims(l, now) == Step(l, CallPending(Some(now))).state;
  }

  lemma ClaimKeepsInv(l: Ledger, ownerId: string, now: int, expires: int)
    requires Inv(l)
    ensures Inv(ClaimNext(l, ownerId, now, expires).state)
  {
    StepKeepsInv(l, CallClaim(ownerId, now, expires));
    assert ClaimNext(l, ownerId, now, expires).state == Step(l, CallClaim(ownerId, now, expires)).state;
  }

  lemma UnderKeepsInv(l: Ledger, claim: OutboxClaim, action: ClaimAction, now: int)
    requires Inv(l)
    ensures Inv(UnderClaim(l, claim, action, now).state)
  {
    StepKeepsInv(l, CallUnder(claim, action, now));
    assert UnderClaim(l, claim, action, now).state == Step(l, CallUnder(claim, action, now)).state;
  }

  lemma {:induction false} RunKeepsInv(l: Ledger, calls: seq<Call>)
    requires Inv(l)
    ensures Inv(Run(l, calls))
    decreases |calls|
  {
    if calls != [] {
      StepKeepsInv(l, calls[0]);
      RunKeepsInv(Step(l, calls[0]).state, calls[1..]);
    }
  }

  // ----- The log -----

  /** The messages in the order in which they were appended. */
  ghost function Log(l: Ledger): seq<LogicalMessage>
    requires TableSound(l)
  {
    MessagesUpTo(l.byId, l.nextId - 1)
  }

  ghost predicate HasUpTo(byId: map<nat, Entry>, n: nat) {
    forall id: nat | 1 <= id <= n :: id in byId
  }

  ghost function MessagesUpTo(byId: map<nat, Entry>, n: nat): seq<LogicalMessage>
    requires HasUpTo(byId, n)
  {
    seq(n, i requires 0 <= i < n => byId[i + 1].message)
  }

  lemma LogAt(l: Ledger, id: nat)
    requires TableSound(l)
    ensures id in l.byId <==> 1 <= id <= |Log(l)|
    ensures id in l.byId ==> Log(l)[id - 1] == l.byId[id].message
  {
  }

  /** The identity index is the inverse of the log, so the log has each identity at most once. */
  lemma IndexInvertsLog(l: Ledger, m: (string, string), id: nat)
    requires Inv(l)
    ensures m in l.byMessage && l.byMessage[m] == id <==> 1 <= id <= |Log(l)| && Log(l)[id - 1].Identity() == m
  {
    LogAt(l, id);
  }

  /** Does the log hold a message under this identity? */
  ghost predicate Known(l: Ledger, identity: (string, string))
    requires TableSound(l)
  {
    exists i | 0 <= i < |Log(l)| :: Log(l)[i].Identity() == identity
  }

  lemma KnownMeansIndexed(l: Ledger, identity: (string, string))
    requires Inv(l)
    ensures Known(l, identity) <==> identity in l.byMessage
  {
    if identity in l.byMessage {
      IndexInvertsLog(l, identity, l.byMessage[identity]);
    }
    if Known(l, identity) {
      var i :| 0 <= i < |Log(l)| && Log(l)[i].Identity() == identity;
      IndexInvertsLog(l, identity, i + 1);
    }
  }

  lemma SameMessages(byId: map<nat, Entry>, byId': map<nat, Entry>, n: nat)
    requires HasUpTo(byId, n) && HasUpTo(byId', n)
    requires forall id: nat | 1 <= id <= n :: byId'[id].message == byId[id].message
    ensures MessagesUpTo(byId', n) == MessagesUpTo(byId, n)
  {
  }

  lemma OneMoreMessage(byId: map<nat, Entry>, n: nat)
    requires HasUpTo(byId, n + 1)
    ensures HasUpTo(byId, n)
    ensures MessagesUpTo(byId, n + 1) == MessagesUpTo(byId, n) + [byId[n + 1].message]
  {
  }

  lemma SameMessagesSameLog(l: Ledger, l': Ledger, added: seq<LogicalMessage>)
    requires TableSound(l) && TableSound(l')
    requires forall id | id in l.byId :: id in l'.byId && l'.byId[id].message == l.byId[id].message
    requires |added| <= 1 && l'.nextId == l.nextId + |added|
    requires added != [] ==> l'.byId[l.nextId].message == added[0]
    ensures Log(l') == Log(l) + added
  {
    var n := l.nextId - 1;
    SameMessages(l.byId, l'.byId, n);
    if added == [] {
      assert Log(l) + [] == Log(l);
    } else {
      OneMoreMessage(l'.byId, n);
      assert added == [added[0]];
    }
  }

  /** Every call leaves the log alone, except that appending a message with a new identity adds it at the end. */
  lemma StepOnLog(l: Ledger, c: Call)
    requires Inv(l)
    ensures Inv(Step(l, c).state)
    ensures Log(Step(l, c).state)
         == Log(l) + if c.CallAppend? && !Known(l, c.message.Identity()) then [c.message] else []
  {
    var l', answer := Step(l, c).state, Step(l, c).answer;
    StepKeepsInv(l, c);
    StepIsLedgerStep(l, c);
    if c.CallAppend? {
      KnownMeansIndexed(l, c.message.Identity());
    }
    LedgerStepOnLog(l, c, l', answer);
  }

  lemma LedgerStepOnLog(l: Ledger, c: Call, l': Ledger, answer: Result<Answer>)
    requires TableSound(l) && TableSound(l') && LedgerStep(l, c, l', answer)
    ensures Log(l') == Log(l) + if c.CallAppend? && c.message.Identity() !in l.byMessage then [c.message] else []
  {
    forall id | id in l.byId ensures l'.byId[id].message == l.byId[id].message {
      assert Transition(l.byId[id], l'.byId[id], GrantedFor(answer, id));
    }
    SameMessagesSameLog(l, l', if c.CallAppend? && c.message.Identity() !in l.byMessage then [c.message] else []);
  }

  lemma {:induction false} RunExtendsLog(l: Ledger, calls: seq<Call>)
    requires Inv(l)
    ensures Inv(Run(l, calls))
    ensures Log(l) <= Log(Run(l, calls))
    decreases |calls|
  {
    if calls != [] {
      StepOnLog(l, calls[0]);
      RunExtendsLog(Step(l, calls[0]).state, calls[1..]);
    }
  }

  /** Appending fails exactly when the log has another message under the same identity; then nothing changes. */
  lemma AppendFailsOnConflict(l: Ledger, message: LogicalMessage)
    requires Inv(l)
    ensures Append(l, message).answer.Err? <==> Known(l, message.Identity()) && message !in Log(l)
    ensures Append(l, message).answer.Err? ==> Append(l, message) == Outcome(l, Err(InvalidTransition))
    ensures message in Log(l) ==> Append(l, message).state == l
  {
    KnownMeansIndexed(l, message.Identity());
    if message.Identity() in l.byMessage {
      LogAt(l, l.byMessage[message.Identity()]);
    }
    if message in Log(l) {
      var i :| 0 <= i < |Log(l)| && Log(l)[i] == message;
      IndexInvertsLog(l, message.Identity(), i + 1);
    }
  }

  /** A successful append answers with the position of the message, and repeating it changes nothing. */
  lemma AppendIsIdempotent(l: Ledger, message: LogicalMessage)
    requires Inv(l) && Append(l, message).answer.Ok?
    ensures var o := Append(l, message);
            && Inv(o.state)
            && 1 <= o.answer.value <= |Log(o.state)|
            && Log(o.state)[o.answer.value - 1] == message
            && Append(o.state, message) == Outcome(o.state, o.answer)
  {
    AppendKeepsInv(l, message);
    LogAt(Append(l, message).state, Append(l, message).answer.value);
  }

  lemma AppendKeepsInv(l: Ledger, message: LogicalMessage)
    requires Inv(l)
    ensures Inv(Append(l, message).state)
  {
    StepKeepsInv(l, CallAppend(message));
    assert Append(l, message).state == Step(l, CallAppend(message)).state;
  }

  // ----- Final entries, and what failing calls leave -----

  lemma {:induction false} FinalEntriesStay(l: Ledger, calls: seq<Call>, id: nat)
    requires Inv(l) && id in l.byId
    requires l.byId[id].state.Published? || l.byId[id].state.Quarantined?
    ensures id in Run(l, calls).byId && Run(l, calls).byId[id] == l.byId[id]
    decreases |calls|
  {
    if calls != [] {
      var l', answer := Step(l, calls[0]).state, Step(l, calls[0]).answer;
      StepIsLedgerStep(l, calls[0]);
      assert Transition(l.byId[id], l'.byId[id], GrantedFor(answer, id));
      StepKeepsInv(l, calls[0]);
      FinalEntriesStay(l', calls[1..], id);
    }
  }

  /** A failing call writes nothing, except that claims over at the supplied time have been released. */
  lemma FailingCallFrame(l: Ledger, c: Call)
    requires Inv(l) && Step(l, c).answer.Err?
    ensures Step(l, c).state == if c.CallUnder? && ActionInputValid(c.action) then ExpireClaims(l, c.now) else l
    ensures forall id | id in l.byId ::
              var e, e' := l.byId[id], Step(l, c).state.byId[id];
              e' == e || (c.CallUnder? && ClaimOver(e, c.now) && e' == Release(e, CLAIM_EXPIRED))
    ensures Step(l, c).answer.error != LookupFailure
  {
  }

  // ----- Expiry composes -----

  function Max(a: int, b: int): int { if a >= b then a else b }

  lemma ExpireTwice(l: Ledger, a: int, b: int)
    ensures ExpireClaims(ExpireClaims(l, a), b) == ExpireClaims(l, Max(a, b))
  {
    forall id | id in l.byId ensures LapseAt(LapseAt(l.byId[id], a), b) == LapseAt(l.byId[id], Max(a, b)) {
    }
    assert ExpireClaims(ExpireClaims(l, a), b).byId == ExpireClaims(l, Max(a, b)).byId;
  }

  function ExpireAll(l: Ledger, times: seq<int>): Ledger
    decreases |times|
  {
    if times == [] then l else ExpireAll(ExpireClaims(l, times[0]), times[1..])
  }

  function Latest(times: seq<int>): int
    requires times != []
  {
    if |times| == 1 then times[0] else Max(times[0], Latest(times[1..]))
  }

  /** Any sequence of expiries, in any order of times, is one expiry at the latest of them. */
  lemma {:induction false} ExpirySequence(l: Ledger, times: seq<int>)
    requires times != []
    ensures ExpireAll(l, times) == ExpireClaims(l, Latest(times))
    decreases |times|
  {
    if |times| == 1 {
      assert ExpireAll(l, times) == ExpireAll(ExpireClaims(l, times[0]), []);
    } else {
      ExpirySequence(ExpireClaims(l, times[0]), times[1..]);
      ExpireTwice(l, times[0], Latest(times[1..]));
    }
  }

  // ----- Dispatch order -----

  predicate IsPending(l: Ledger, id: nat) {
    id in l.byId && l.byId[id].state.Pending?
  }

  /** The list has exactly the pending records from `from` on. */
  lemma {:induction false} PendingExact(l: Ledger, from: nat, id: nat)
    ensures id in PendingFrom(l, from) <==> from <= id < l.nextId && IsPending(l, id)
    decreases l.nextId - from
  {
    if from < l.nextId {
      PendingExact(l, from + 1, id);
      assert PendingFrom(l, from) == (if IsPending(l, from) then [from] else []) + PendingFrom(l, from + 1);
    }
  }

  ghost predicate Ascending(ids: seq<nat>) {
    forall i, j | 0 <= i < j < |ids| :: ids[i] < ids[j]
  }

  lemma {:induction false} PendingAscending(l: Ledger, from: nat)
    ensures Ascending(PendingFrom(l, from))
    decreases l.nextId - from
  {
    if from < l.nextId {
      PendingAscending(l, from + 1);
      var rest := PendingFrom(l, from + 1);
      if IsPending(l, from) {
        forall j | 0 <= j < |rest| ensures from < rest[j] {
          PendingExact(l, from + 1, rest[j]);
        }
        assert PendingFrom(l, from) == [from] + rest;
      } else {
        assert PendingFrom(l, from) == rest;
      }
    }
  }

  lemma {:induction false} FirstIsHead(l: Ledger, from: nat)
    ensures FirstPending(l, from) == if PendingFrom(l, from) == [] then None else Some(PendingFrom(l, from)[0])
    decreases l.nextId - from
  {
    if from < l.nextId {
      FirstIsHead(l, from + 1);
    }
  }

  /** The head of the pending list is the least pending record. */
  lemma HeadIsEarliest(l: Ledger)
    requires PendingIds(l) != []
    ensures IsPending(l, PendingIds(l)[0])
    ensures forall id | 1 <= id < l.nextId && IsPending(l, id) :: PendingIds(l)[0] <= id
  {
    var ids := PendingIds(l);
    PendingAscending(l, 1);
    PendingExact(l, 1, ids[0]);
    forall id | 1 <= id < l.nextId && IsPending(l, id) ensures ids[0] <= id {
      PendingExact(l, 1, id);
      var i :| 0 <= i < |ids| && ids[i] == id;
    }
  }

  /** Taking the first pending record out of the pending state removes exactly it. */
  lemma {:induction false} PendingAfterTaking(l: Ledger, from: nat, id: nat, e: Entry)
    requires id in l.byId && !e.state.Pending?
    requires id < from || (PendingFrom(l, from) != [] && PendingFrom(l, from)[0] == id)
    ensures PendingFrom(Put(l, id, e), from) == if id < from then PendingFrom(l, from) else PendingFrom(l, from)[1..]
    decreases l.nextId - from
  {
    if from < l.nextId {
      PendingAfterTaking(l, from + 1, id, e);
      PendingExact(l, from, id);
      assert IsPending(Put(l, id, e), from) <==> IsPending(l, from) && id != from;
    }
  }

  /**
   A claim is handed out for the earliest appended record that is pending once expired claims are
   back, that record alone leaves the pending ones, and no claim is handed out exactly when there is none.
   */
  lemma ClaimTakesEarliest(l: Ledger, ownerId: string, now: int, expires: int)
    requires Inv(l) && ValidIdentifier(ownerId) && now < expires
    ensures var l', o := ExpireClaims(l, now), ClaimNext(l, ownerId, now, expires);
            && o.answer.Ok?
            && (o.answer.value.None? <==> forall id | id in l.byId :: !IsPending(l', id))
            && (o.answer.value.None? ==> o.state == l')
            && (o.answer.value.Some? ==>
                  && IsPending(l', o.answer.value.value.recordId)
                  && (forall id | id in l.byId && IsPending(l', id) :: o.answer.value.value.recordId <= id)
                  && PendingIds(l') != []
                  && PendingIds(o.state) == PendingIds(l')[1..])
  {
    ClaimTakesHead(l, ownerId, now, expires);
    var l' := ExpireClaims(l, now);
    if PendingIds(l') != [] {
      HeadIsEarliest(l');
    } else {
      forall id | id in l.byId ensures !IsPending(l', id) {
        PendingExact(l', 1, id);
      }
    }
  }

  lemma ClaimTakesHead(l: Ledger, ownerId: string, now: int, expires: int)
    requires ValidIdentifier(ownerId) && now < expires
    ensures var l' := ExpireClaims(l, now);
            var o := ClaimNext(l, ownerId, now, expires);
            && o.answer.Ok?
            && if PendingIds(l') == [] then o == Outcome(l', Ok(None))
               else
                 var id := PendingIds(l')[0];
                 && o.answer.value.Some? && o.answer.value.value.recordId == id
                 && o.state == Put(l', id, Grab(l'.byId[id], ownerId, expires))
                 && HeldBy(Grab(l'.byId[id], ownerId, expires), o.answer.value.value)
                 && PendingIds(o.state) == PendingIds(l')[1..]
  {
    var l' := ExpireClaims(l, now);
    FirstIsHead(l', 1);
    if PendingIds(l') != [] {
      var id := PendingIds(l')[0];
      PendingExact(l', 1, id);
      PendingAfterTaking(l', 1, id, Grab(l'.byId[id], ownerId, expires));
    }
  }

  lemma {:induction false} MessagesOfPending(l: Ledger, from: nat, i: nat)
    requires i < |PendingFrom(l, from)|
    ensures |PendingMessagesFrom(l, from)| == |PendingFrom(l, from)|
    ensures PendingMessagesFrom(l, from)[i] == l.byId[PendingFrom(l, from)[i]].message
    decreases l.nextId - from
  {
    if IsPending(l, from) {
      if PendingFrom(l, from + 1) != [] {
        MessagesOfPending(l, from + 1, if i == 0 then 0 else i - 1);
      } else {
        NoPendingNoMessages(l, from + 1);
      }
    } else {
      MessagesOfPending(l, from + 1, i);
    }
  }

  lemma {:induction false} NoPendingNoMessages(l: Ledger, from: nat)
    requires PendingFrom(l, from) == []
    ensures PendingMessagesFrom(l, from) == []
    decreases l.nextId - from
  {
    if from < l.nextId {
      NoPendingNoMessages(l, from + 1);
    }
  }

  lemma PendingKeepsLog(l: Ledger, observedAt: Option<int>)
    requires Inv(l)
    ensures var l' := PendingMessages(l, observedAt).state; Inv(l') && Log(l') == Log(l)
  {
    if observedAt.Some? {
      ExpireKeepsInv(l, observedAt.value);
      SameMessagesSameLog(l, ExpireClaims(l, observedAt.value), []);
      assert Log(l) + [] == Log(l);
    }
  }

  /**
   The i-th message that `pending_messages` answers is the log's message at the i-th pending record;
   the pending records are listed exactly and in append order by `PendingExact` and `PendingAscending`.
   */
  lemma PendingMessagesInLogOrder(l: Ledger, observedAt: Option<int>, i: nat)
    requires Inv(l) && i < |PendingIds(PendingMessages(l, observedAt).state)|
    ensures var o := PendingMessages(l, observedAt);
            var id := PendingIds(o.state)[i];
            && o.answer.Ok? && |o.answer.value| == |PendingIds(o.state)|
            && 1 <= id <= |Log(l)|
            && o.answer.value[i] == Log(l)[id - 1]
  {
    var o := PendingMessages(l, observedAt);
    PendingKeepsLog(l, observedAt);
    MessagesOfPending(o.state, 1, i);
    LogAt(o.state, PendingIds(o.state)[i]);
  }

  // ----- Draining -----

  /** One turn of a dispatcher: claim, then publish or quarantine before the claim is over. */
  datatype Round = Round(ownerId: string, now: int, expires: int, verdict: ClaimAction, at: int)

  predicate InTime(r: Round) {
    && ValidIdentifier(r.ownerId) && r.now < r.expires && r.at < r.expires
    && ActionInputValid(r.verdict) && (r.verdict.Publish? || r.verdict.Quarantine?)
  }

  /** No claim that somebody holds is over at this time. */
  predicate NoneOver(l: Ledger, now: int) {
    forall id | id in l.byId :: !ClaimOver(l.byId[id], now)
  }

  /** Claims of other dispatchers may be outstanding, as long as none is over at any time the rounds use. */
  ghost predicate Undisturbed(l: Ledger, rounds: seq<Round>) {
    forall i | 0 <= i < |rounds| :: NoneOver(l, rounds[i].now) && NoneOver(l, rounds[i].at)
  }

  /** The ledger after the rounds, and the records they claimed, in order. */
  function Drain(l: Ledger, rounds: seq<Round>): (Ledger, seq<nat>)
    decreases |rounds|
  {
    if rounds == [] then (l, [])
    else
      var r := rounds[0];
      var o := ClaimNext(l, r.ownerId, r.now, r.expires);
      if o.answer.Err? || o.answer.value.None? then Drain(o.state, rounds[1..])
      else
        var (l', rest) := Drain(UnderClaim(o.state, o.answer.value.value, r.verdict, r.at).state, rounds[1..]);
        (l', [o.answer.value.value.recordId] + rest)
  }

  lemma NothingToExpire(l: Ledger, now: int)
    requires NoneOver(l, now)
    ensures ExpireClaims(l, now) == l
  {
    assert ExpireClaims(l, now).byId == l.byId;
  }

  /** What one round leaves: the head of the pending list is closed by its verdict, nothing else moves. */
  function AfterRound(l: Ledger, id: nat, r: Round): Ledger
    requires id in l.byId
  {
    Put(l, id, Apply(Grab(l.byId[id], r.ownerId, r.expires), r.verdict))
  }

  lemma RoundTakesHead(l: Ledger, r: Round)
    requires NoneOver(l, r.now) && NoneOver(l, r.at) && InTime(r) && PendingIds(l) != []
    ensures var o := ClaimNext(l, r.ownerId, r.now, r.expires);
            var id := PendingIds(l)[0];
            && o.answer.Ok? && o.answer.value.Some? && o.answer.value.value.recordId == id
            && UnderClaim(o.state, o.answer.value.value, r.verdict, r.at)
               == Outcome(AfterRound(l, id, r), Ok(()))
  {
    var id := PendingIds(l)[0];
    NothingToExpire(l, r.now);
    ClaimTakesHead(l, r.ownerId, r.now, r.expires);
    var claimed := Put(l, id, Grab(l.byId[id], r.ownerId, r.expires));
    forall i | i in claimed.byId ensures !ClaimOver(claimed.byId[i], r.at) {
      assert i != id ==> claimed.byId[i] == l.byId[i];
    }
    NothingToExpire(claimed, r.at);
    assert AfterRound(l, id, r).byId == claimed.byId[id := Apply(claimed.byId[id], r.verdict)];
  }

  lemma RoundFindsNone(l: Ledger, r: Round)
    requires NoneOver(l, r.now) && InTime(r) && PendingIds(l) == []
    ensures ClaimNext(l, r.ownerId, r.now, r.expires) == Outcome(l, Ok(None))
  {
    NothingToExpire(l, r.now);
    ClaimTakesHead(l, r.ownerId, r.now, r.expires);
  }

  function Min(a: nat, b: nat): nat { if a <= b then a else b }

  /** The ledger in which round i has closed the i-th of `ids`. */
  function CloseAll(l: Ledger, ids: seq<nat>, rounds: seq<Round>): Ledger
    requires |ids| <= |rounds| && forall i | 0 <= i < |ids| :: ids[i] in l.byId
    decreases |ids|
  {
    if ids == [] then l else CloseAll(AfterRound(l, ids[0], rounds[0]), ids[1..], rounds[1..])
  }

  /** The rounds took the first pending records, closed each by its own verdict, and left the rest pending. */
  ghost predicate Drained(l: Ledger, rounds: seq<Round>, end: Ledger, taken: seq<nat>) {
    var pending := PendingIds(l);
    var k := Min(|rounds|, |pending|);
    && taken == pending[..k]
    && end == CloseAll(l, pending[..k], rounds)
    && PendingIds(end) == pending[k..]
  }

  /**
   A dispatcher that finishes every claim in time drains the outbox in append order: k rounds take
   exactly the first k pending records, each closed by the verdict of its own round, whatever the clock
   values, and the rest stay pending.
   */
  lemma {:induction false} DrainsInAppendOrder(l: Ledger, rounds: seq<Round>)
    requires Undisturbed(l, rounds) && forall i | 0 <= i < |rounds| :: InTime(rounds[i])
    ensures Drained(l, rounds, Drain(l, rounds).0, Drain(l, rounds).1)
    decreases |rounds|
  {
    if rounds != [] {
      if PendingIds(l) == [] {
        RoundFindsNone(l, rounds[0]);
        DrainsInAppendOrder(l, rounds[1..]);
      } else {
        var next := AfterRound(l, PendingIds(l)[0], rounds[0]);
        FirstRoundThenRest(l, rounds);
        DrainsInAppendOrder(next, rounds[1..]);
        DrainedOneMore(l, rounds, next, Drain(next, rounds[1..]).0, Drain(next, rounds[1..]).1);
      }
    }
  }

  lemma TakeOneMore(p: seq<nat>, j: nat)
    requires j < |p|
    ensures p[..j + 1] == [p[0]] + p[1..][..j]
    ensures p[..j + 1][1..] == p[1..][..j]
    ensures p[1..][j..] == p[j + 1..]
  {
  }

  lemma ClosedStaysUndisturbed(l: Ledger, id: nat, e: Entry, rounds: seq<Round>)
    requires Undisturbed(l, rounds) && rounds != [] && !e.state.Claimed?
    ensures Undisturbed(Put(l, id, e), rounds[1..])
  {
    forall i | 0 <= i < |rounds[1..]|
      ensures NoneOver(Put(l, id, e), rounds[1..][i].now) && NoneOver(Put(l, id, e), rounds[1..][i].at)
    {
      assert NoneOver(l, rounds[i + 1].now) && NoneOver(l, rounds[i + 1].at);
    }
  }

  lemma FirstRoundThenRest(l: Ledger, rounds: seq<Round>)
    requires Undisturbed(l, rounds) && rounds != [] && PendingIds(l) != [] && InTime(rounds[0])
    ensures var id := PendingIds(l)[0];
            var next := AfterRound(l, id, rounds[0]);
            && Undisturbed(next, rounds[1..])
            && PendingIds(next) == PendingIds(l)[1..]
            && Drain(l, rounds).0 == Drain(next, rounds[1..]).0
            && Drain(l, rounds).1 == [id] + Drain(next, rounds[1..]).1
  {
    var id := PendingIds(l)[0];
    var next := AfterRound(l, id, rounds[0]);
    RoundTakesHead(l, rounds[0]);
    ClosedStaysUndisturbed(l, id, next.byId[id], rounds);
    PendingExact(l, 1, id);
    PendingAfterTaking(l, 1, id, next.byId[id]);
  }

  lemma DrainedOneMore(l: Ledger, rounds: seq<Round>, next: Ledger, end: Ledger, taken: seq<nat>)
    requires rounds != [] && PendingIds(l) != []
    requires next == AfterRound(l, PendingIds(l)[0], rounds[0]) && PendingIds(next) == PendingIds(l)[1..]
    requires Drained(next, rounds[1..], end, taken)
    ensures Drained(l, rounds, end, [PendingIds(l)[0]] + taken)
  {
    var pending := PendingIds(l);
    var j := Min(|rounds| - 1, |pending| - 1);
    TakeOneMore(pending, j);
    CloseOneMore(l, pending, rounds, j);
  }

  lemma CloseOneMore(l: Ledger, ids: seq<nat>, rounds: seq<Round>, j: nat)
    requires j < |ids| && j < |rounds| && forall i | 0 <= i < |ids| :: ids[i] in l.byId
    ensures CloseAll(l, ids[..j + 1], rounds) == CloseAll(AfterRound(l, ids[0], rounds[0]), ids[1..][..j], rounds[1..])
  {
    TakeOneMore(ids, j);
  }

  // ----- Whole runs in which every claim is closed in time -----

  /** Would the outbox let this claim act at this time? */
  predicate Accepts(l: Ledger, c: OutboxClaim, now: int) {
    c.recordId in l.byId && HeldBy(LapseAt(l.byId[c.recordId], now), c)
  }

  /**
   The call gives no claimed record back: it lets no claim lapse, and it closes a claim, if it does, by publishing or
   quarantining. Appends, listings, refused calls and claims of any number of dispatchers are all allowed.
   */
  predicate GivesNothingBack(l: Ledger, c: Call) {
    match c
    case CallAppend(_) => true
    case CallClaim(owner, now, expires) => ValidIdentifier(owner) && now < expires ==> NoneOver(l, now)
    case CallUnder(claim, action, now) =>
      ActionInputValid(action) ==>
        NoneOver(l, now) && (Accepts(l, claim, now) ==> action.Publish? || action.Quarantine?)
    case CallPending(observedAt) => observedAt.Some? ==> NoneOver(l, observedAt.value)
  }

  ghost predicate ClosedInTime(l: Ledger, calls: seq<Call>)
    decreases |calls|
  {
    calls != [] ==> GivesNothingBack(l, calls[0]) && ClosedInTime(Step(l, calls[0]).state, calls[1..])
  }

  function ClaimsOf(l: Ledger, calls: seq<Call>): seq<OutboxClaim>
    decreases |calls|
  {
    if calls == [] then []
    else
      var granted := GrantedClaim(Step(l, calls[0]).answer);
      (if granted.Some? then [granted.value] else []) + ClaimsOf(Step(l, calls[0]).state, calls[1..])
  }

  /** Exactly the records behind the first m are pending. */
  ghost predicate Frontier(l: Ledger, m: nat) {
    && m < l.nextId
    && forall id | id in l.byId :: l.byId[id].state.Pending? <==> m < id
  }

  lemma {:induction false} FirstBehindFrontier(l: Ledger, m: nat, from: nat)
    requires TableSound(l) && Frontier(l, m) && 1 <= from <= m + 1
    ensures FirstPending(l, from) == if m + 1 < l.nextId then Some(m + 1) else None
    decreases m + 1 - from
  {
    if from <= m {
      FirstBehindFrontier(l, m, from + 1);
    }
  }

  lemma ClaimMovesFrontier(l: Ledger, c: Call, m: nat)
    requires TableSound(l) && Frontier(l, m) && c.CallClaim? && GivesNothingBack(l, c)
    ensures var granted := GrantedClaim(Step(l, c).answer);
            if granted.None? then Step(l, c).state == l
            else
              && granted.value.recordId == m + 1 && m + 1 in l.byId
              && granted.value.message == l.byId[m + 1].message
              && Frontier(Step(l, c).state, m + 1)
  {
    if ValidIdentifier(c.ownerId) && c.now < c.expires {
      NothingToExpire(l, c.now);
      FirstBehindFrontier(l, m, 1);
    }
  }

  lemma OthersKeepFrontier(l: Ledger, c: Call, m: nat)
    requires TableSound(l) && Frontier(l, m) && !c.CallClaim? && GivesNothingBack(l, c)
    ensures GrantedClaim(Step(l, c).answer).None?
    ensures Frontier(Step(l, c).state, m)
  {
    match c
    case CallAppend(_) =>
    case CallUnder(_, action, now) =>
      if ActionInputValid(action) {
        NothingToExpire(l, now);
      }
    case CallPending(observedAt) =>
      if observedAt.Some? {
        NothingToExpire(l, observedAt.value);
      }
  }

  /** The i-th claim is for the i-th record behind the frontier, and hands out that record's message. */
  ghost predicate HandedOut(claims: seq<OutboxClaim>, end: Ledger, m: nat) {
    forall i | 0 <= i < |claims| :: HandsOut(claims[i], end, m + i + 1)
  }

  predicate HandsOut(c: OutboxClaim, end: Ledger, id: nat) {
    c.recordId == id && id in end.byId && c.message == end.byId[id].message
  }

  lemma OneMoreHandedOut(c: OutboxClaim, rest: seq<OutboxClaim>, end: Ledger, m: nat)
    requires HandedOut(rest, end, m + 1) && HandsOut(c, end, m + 1)
    ensures HandedOut([c] + rest, end, m)
  {
    var all := [c] + rest;
    forall i | 0 <= i < |all| ensures HandsOut(all[i], end, m + i + 1) {
      if i > 0 {
        assert all[i] == rest[i - 1] && HandsOut(rest[i - 1], end, m + 1 + (i - 1) + 1);
      }
    }
  }

  lemma {:induction false} RunKeepsMessage(l: Ledger, calls: seq<Call>, id: nat)
    requires Inv(l) && id in l.byId
    ensures id in Run(l, calls).byId && Run(l, calls).byId[id].message == l.byId[id].message
    decreases |calls|
  {
    if calls != [] {
      var l', answer := Step(l, calls[0]).state, Step(l, calls[0]).answer;
      StepIsLedgerStep(l, calls[0]);
      assert Transition(l.byId[id], l'.byId[id], GrantedFor(answer, id));
      StepKeepsInv(l, calls[0]);
      RunKeepsMessage(l', calls[1..], id);
    }
  }

  lemma ClaimHandsOut(l: Ledger, c: Call, calls: seq<Call>, m: nat)
    requires Inv(l) && Frontier(l, m) && c.CallClaim? && GivesNothingBack(l, c)
    requires GrantedClaim(Step(l, c).answer).Some?
    ensures HandsOut(GrantedClaim(Step(l, c).answer).value, Run(Step(l, c).state, calls), m + 1)
  {
    ClaimMovesFrontier(l, c, m);
    StepIsLedgerStep(l, c);
    assert Transition(l.byId[m + 1], Step(l, c).state.byId[m + 1], GrantedFor(Step(l, c).answer, m + 1));
    StepKeepsInv(l, c);
    RunKeepsMessage(Step(l, c).state, calls, m + 1);
  }

  lemma GrantIsClaim(l: Ledger, c: Call)
    requires GrantedClaim(Step(l, c).answer).Some?
    ensures c.CallClaim?
  {
  }

  lemma GrantExtends(l: Ledger, c: Call, calls: seq<Call>, m: nat)
    requires Inv(l) && Frontier(l, m) && c.CallClaim? && GivesNothingBack(l, c)
    requires GrantedClaim(Step(l, c).answer).Some?
    requires HandedOut(ClaimsOf(Step(l, c).state, calls), Run(Step(l, c).state, calls), m + 1)
    ensures HandedOut(ClaimsOf(l, [c] + calls), Run(l, [c] + calls), m)
    ensures |ClaimsOf(l, [c] + calls)| == 1 + |ClaimsOf(Step(l, c).state, calls)|
  {
    var l' := Step(l, c).state;
    assert ([c] + calls)[1..] == calls;
    ClaimHandsOut(l, c, calls, m);
    OneMoreHandedOut(GrantedClaim(Step(l, c).answer).value, ClaimsOf(l', calls), Run(l', calls), m);
  }

  lemma NoGrantKeepsFrontier(l: Ledger, c: Call, m: nat)
    requires TableSound(l) && Frontier(l, m) && GivesNothingBack(l, c) && GrantedClaim(Step(l, c).answer).None?
    ensures Frontier(Step(l, c).state, m)
  {
    if c.CallClaim? {
      ClaimMovesFrontier(l, c, m);
    } else {
      OthersKeepFrontier(l, c, m);
    }
  }

  function Taken(l: Ledger, c: Call): nat { if GrantedClaim(Step(l, c).answer).Some? then 1 else 0 }

  lemma StepMovesFrontier(l: Ledger, c: Call, m: nat)
    requires Inv(l) && Frontier(l, m) && GivesNothingBack(l, c)
    ensures Inv(Step(l, c).state) && Frontier(Step(l, c).state, m + Taken(l, c))
  {
    StepKeepsInv(l, c);
    if Taken(l, c) == 1 {
      GrantIsClaim(l, c);
      ClaimMovesFrontier(l, c, m);
    } else {
      NoGrantKeepsFrontier(l, c, m);
    }
  }

  lemma StepExtends(l: Ledger, c: Call, calls: seq<Call>, m: nat)
    requires Inv(l) && Frontier(l, m) && GivesNothingBack(l, c)
    requires HandedOut(ClaimsOf(Step(l, c).state, calls), Run(Step(l, c).state, calls), m + Taken(l, c))
    ensures HandedOut(ClaimsOf(l, [c] + calls), Run(l, [c] + calls), m)
    ensures |ClaimsOf(l, [c] + calls)| == Taken(l, c) + |ClaimsOf(Step(l, c).state, calls)|
    ensures Run(l, [c] + calls) == Run(Step(l, c).state, calls)
  {
    assert ([c] + calls)[1..] == calls;
    if Taken(l, c) == 1 {
      GrantIsClaim(l, c);
      GrantExtends(l, c, calls, m);
    }
  }

  lemma {:induction false} ClaimsInOrder(l: Ledger, calls: seq<Call>, m: nat)
    requires Inv(l) && Frontier(l, m) && ClosedInTime(l, calls)
    ensures HandedOut(ClaimsOf(l, calls), Run(l, calls), m)
    ensures Frontier(Run(l, calls), m + |ClaimsOf(l, calls)|)
    decreases |calls|
  {
    if calls != [] {
      StepMovesFrontier(l, calls[0], m);
      ClaimsInOrder(Step(l, calls[0]).state, calls[1..], m + Taken(l, calls[0]));
      StepExtends(l, calls[0], calls[1..], m);
      assert calls == [calls[0]] + calls[1..];
    }
  }

  /**
   In every run in which no claimed record is given back, the claims hand out the log itself: the i-th claim is for
   record i and the log's i-th message, so record ids strictly ascend without a gap, and exactly the records behind
   the last claim are pending. Messages may be appended, and several claims held, at any time.
   */
  lemma ClaimsFollowTheLog(calls: seq<Call>)
    requires ClosedInTime(EMPTY, calls)
    ensures TableSound(Run(EMPTY, calls))
    ensures var claims, log := ClaimsOf(EMPTY, calls), Log(Run(EMPTY, calls));
            && |claims| <= |log|
            && (forall i | 0 <= i < |claims| :: claims[i].recordId == i + 1 && claims[i].message == log[i])
            && (forall id: nat :: IsPending(Run(EMPTY, calls), id) <==> |claims| < id <= |log|)
  {
    var claims, end := ClaimsOf(EMPTY, calls), Run(EMPTY, calls);
    RunKeepsInv(EMPTY, calls);
    ClaimsInOrder(EMPTY, calls, 0);
    ClaimsAndLog(claims, end);
  }

  lemma ClaimsAndLog(claims: seq<OutboxClaim>, end: Ledger)
    requires Inv(end) && HandedOut(claims, end, 0) && Frontier(end, |claims|)
    ensures |claims| <= |Log(end)|
    ensures forall i | 0 <= i < |claims| :: claims[i].recordId == i + 1 && claims[i].message == Log(end)[i]
    ensures forall id: nat :: IsPending(end, id) <==> |claims| < id <= |Log(end)|
  {
    forall i | 0 <= i < |claims| ensures claims[i].recordId == i + 1 && claims[i].message == Log(end)[i] {
      assert HandsOut(claims[i], end, i + 1);
      LogAt(end, i + 1);
    }
    forall id: nat ensures IsPending(end, id) <==> |claims| < id <= |Log(end)| {
      LogAt(end, id);
    }
  }

  // ----- Retired claims -----

  function SlotOf(e: Entry): Slot<OutboxClaim> {
    if e.state.Claimed? && e.claimOwner.Some? && e.claimExpiresAt.Some? then
      Held(e.claimGeneration,
           OutboxClaim(e.recordId, e.claimOwner.value, e.claimGeneration, e.claimExpiresAt.value, e.message))
    else Idle(e.claimGeneration)
  }

  function Slots(l: Ledger): map<nat, Slot<OutboxClaim>> {
    map id | id in l.byId :: SlotOf(l.byId[id])
  }

  function GrantOf(answer: Result<Answer>): Option<Grant<nat, OutboxClaim>> {
    var c := GrantedClaim(answer);
    if c.Some? then Some(Grant(c.value.recordId, c.value.claimGeneration, c.value)) else None
  }

  /** A ledger together with the claims it has handed out so far, oldest first. */
  datatype Traced = Traced(ledger: Ledger, grants: seq<Grant<nat, OutboxClaim>>)

  function TraceStep(t: Traced, c: Call): Traced {
    Traced(Step(t.ledger, c).state, t.grants + AsSeq(GrantOf(Step(t.ledger, c).answer)))
  }

  function Trace(t: Traced, calls: seq<Call>): Traced
    decreases |calls|
  {
    if calls == [] then t else Trace(TraceStep(t, calls[0]), calls[1..])
  }

  const FRESH := Traced(EMPTY, [])

  lemma LedgerStepIsTableStep(l: Ledger, c: Call, l': Ledger, answer: Result<Answer>)
    requires TableSound(l) && LedgerStep(l, c, l', answer)
    ensures TableStep(Slots(l), Slots(l'), GrantOf(answer))
  {
    forall id | id in l.byId
      ensures id in l'.byId
      ensures SlotStep(SlotOf(l.byId[id]), SlotOf(l'.byId[id]), GrantedFor(answer, id))
    {
      assert Transition(l.byId[id], l'.byId[id], GrantedFor(answer, id)) && EntrySound(l.byId[id]);
    }
  }

  ghost predicate Tracked(t: Traced) {
    && Inv(t.ledger)
    && History(Slots(t.ledger), t.grants)
    && forall i | 0 <= i < |t.grants| ::
         t.grants[i].claim.recordId == t.grants[i].key && t.grants[i].claim.claimGeneration == t.grants[i].generation
  }

  lemma StepKeepsTracked(t: Traced, c: Call)
    requires Tracked(t)
    ensures Tracked(TraceStep(t, c))
  {
    var l, l', answer := t.ledger, Step(t.ledger, c).state, Step(t.ledger, c).answer;
    StepKeepsInv(l, c);
    StepIsLedgerStep(l, c);
    LedgerStepIsTableStep(l, c, l', answer);
    HistoryStep(Slots(l), Slots(l'), t.grants, GrantOf(answer));
  }

  lemma {:induction false} TraceKeepsTracked(t: Traced, calls: seq<Call>)
    requires Tracked(t)
    ensures Tracked(Trace(t, calls))
    decreases |calls|
  {
    if calls != [] {
      StepKeepsTracked(t, calls[0]);
      TraceKeepsTracked(TraceStep(t, calls[0]), calls[1..]);
    }
  }

  lemma {:induction false} RunKeepsRetired(l: Ledger, calls: seq<Call>, id: nat, g: nat)
    requires Inv(l) && id in l.byId && Retired(SlotOf(l.byId[id]), g)
    ensures id in Run(l, calls).byId && Retired(SlotOf(Run(l, calls).byId[id]), g)
    decreases |calls|
  {
    if calls != [] {
      var l', answer := Step(l, calls[0]).state, Step(l, calls[0]).answer;
      StepIsLedgerStep(l, calls[0]);
      assert Transition(l.byId[id], l'.byId[id], GrantedFor(answer, id)) && EntrySound(l.byId[id]);
      StepKeepsInv(l, calls[0]);
      RunKeepsRetired(l', calls[1..], id, g);
    }
  }

  /** Generations handed out for one record strictly increase, and at most one of its claims is acceptable. */
  lemma OneLiveClaim(calls: seq<Call>, i: nat, j: nat, now: int, now': int)
    requires i < j < |Trace(FRESH, calls).grants|
    requires Trace(FRESH, calls).grants[i].key == Trace(FRESH, calls).grants[j].key
    ensures var t := Trace(FRESH, calls);
            var a, b := t.grants[i].claim, t.grants[j].claim;
            && a.claimGeneration < b.claimGeneration
            && !(Accepts(t.ledger, a, now) && Accepts(t.ledger, b, now'))
  {
    TraceKeepsTracked(FRESH, calls);
  }

  lemma PresentingRetires(t: Traced, i: nat, action: ClaimAction, now: int)
    requires Tracked(t) && i < |t.grants| && ActionInputValid(action)
    ensures var c := t.grants[i].claim;
            var used := UnderClaim(t.ledger, c, action, now).state;
            && used == Step(t.ledger, CallUnder(c, action, now)).state
            && c.recordId in used.byId && Retired(SlotOf(used.byId[c.recordId]), c.claimGeneration)
  {
    var c := t.grants[i].claim;
    assert EntrySound(t.ledger.byId[c.recordId]);
  }

  lemma RetiredIsRefused(l: Ledger, c: OutboxClaim, action: ClaimAction, now: int)
    requires c.recordId in l.byId && Retired(SlotOf(l.byId[c.recordId]), c.claimGeneration)
    ensures !Accepts(l, c, now) && UnderClaim(l, c, action, now).answer.Err?
  {
  }

  /** A claim that was handed out and then presented once, whatever came of it, is refused for ever after. */
  lemma ClaimActsAtMostOnce(
    before: seq<Call>, i: nat, action: ClaimAction, now: int, later: seq<Call>, action': ClaimAction, now': int)
    requires i < |Trace(FRESH, before).grants| && ActionInputValid(action)
    ensures var t := Trace(FRESH, before);
            var c := t.grants[i].claim;
            var used := UnderClaim(t.ledger, c, action, now).state;
            && !Accepts(Run(used, later), c, now')
            && UnderClaim(Run(used, later), c, action', now').answer.Err?
  {
    var t := Trace(FRESH, before);
    var c := t.grants[i].claim;
    TraceKeepsTracked(FRESH, before);
    PresentingRetires(t, i, action, now);
    StepKeepsInv(t.ledger, CallUnder(c, action, now));
    var used := Step(t.ledger, CallUnder(c, action, now)).state;
    RunKeepsRetired(used, later, c.recordId, c.claimGeneration);
    RetiredIsRefused(Run(used, later), c, action', now');
  }
}
