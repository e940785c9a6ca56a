/**
 What every call on the outbox leaves behind, field by field, and what follows for whole runs: a record is closed
 exactly by an accepted call that closes it, and until then it can always be handed out again.
 */
module OutboxOutcomes {
  import opened Foundation
  import opened OutboxSpec
  import opened OutboxProofs

  // ----- append_committed -----

  lemma AppendOutcome(l: Ledger, m: LogicalMessage)
    requires Inv(l) && !Known(l, m.Identity())
    ensures Append(l, m) ==
            Outcome(Ledger(l.nextId + 1,
                           l.byId[l.nextId := Entry(l.nextId, m, Pending, None, 0, None, 0, None, None)],
                           l.byMessage[m.Identity() := l.nextId]),
                    Ok(l.nextId))
  {
    KnownMeansIndexed(l, m.Identity());
  }

  // ----- Expiry -----

  predicate HeldAndOver(e: Entry, now: int) {
    e.state.Claimed? && e.claimExpiresAt.Some? && e.claimExpiresAt.value <= now
  }

  /** Pending again, under an error class; message, generation, attempts and receipt are kept. */
  function GivenBack(e: Entry, errorClass: string): Entry {
    Entry(e.recordId, e.message, Pending, None, e.claimGeneration, None, e.attemptCount, Some(errorClass),
          e.publicationReceipt)
  }

  /** A claim that is over makes its record pending again; every other record and the index stay as they are. */
  lemma ExpiryGivesBack(l: Ledger, now: int)
    ensures var l' := ExpireClaims(l, now);
            && l'.nextId == l.nextId && l'.byMessage == l.byMessage && l'.byId.Keys == l.byId.Keys
            && forall id | id in l.byId ::
                 && (HeldAndOver(l.byId[id], now) ==>
                       && IsPending(l', id)
                       && l'.byId[id] == GivenBack(l.byId[id], "dispatcher_claim_expired_outcome_not_proven_absent"))
                 && (!HeldAndOver(l.byId[id], now) ==> l'.byId[id] == l.byId[id])
  {
  }

  // ----- claim_next -----

  /** What a claim leaves of the least pending record once expired claims are back. */
  lemma ClaimOutcome(l: Ledger, owner: string, now: int, expires: int)
    requires Inv(l)
    ensures var o, l' := ClaimNext(l, owner, now, expires), ExpireClaims(l, now);
            && (o.answer.Err? <==> !ValidIdentifier(owner) || expires <= now)
            && (o.answer.Err? ==> o == Outcome(l, Err(ValueError)))
            && (o.answer.Ok? && o.answer.value.Some? ==>
                  var c := o.answer.value.value;
                  && c.recordId in l'.byId
                  && var e := l'.byId[c.recordId];
                     && c == OutboxClaim(e.recordId, owner, e.claimGeneration + 1, expires, e.message)
                     && o.state ==
                        Ledger(l'.nextId,
                               l'.byId[e.recordId := Entry(e.recordId, e.message, Claimed, Some(owner),
                                                           e.claimGeneration + 1, Some(expires), e.attemptCount + 1,
                                                           e.lastErrorClass, e.publicationReceipt)],
                               l'.byMessage))
  {
    ExpireKeepsInv(l, now);
    FirstPendingIsPending(ExpireClaims(l, now), 1);
  }

  // ----- The calls made under a claim -----

  /** This claim is the one its record is held by, and its lease is not over. */
  predicate Holds(l: Ledger, c: OutboxClaim, now: int) {
    && c.recordId in l.byId
    && var e := l.byId[c.recordId];
       && e.state.Claimed?
       && e.claimOwner == Some(c.ownerId) && e.claimGeneration == c.claimGeneration
       && e.claimExpiresAt == Some(c.claimExpiresAt) && now < c.claimExpiresAt
  }

  predicate InputValid(action: ClaimAction) {
    action.Publish? || action.ReportAmbiguous? || ValidIdentifier(action.errorClass)
  }

  /** What each accepted call makes of the record it closes or gives back. */
  function Acted(e: Entry, action: ClaimAction): Entry {
    match action
    case Publish(receipt) =>
      Entry(e.recordId, e.message, Published, None, e.claimGeneration, None, e.attemptCount, None, Some(receipt))
    case ReportAmbiguous => GivenBack(e, "publication_outcome_ambiguous")
    case ReleaseClaim(errorClass) => GivenBack(e, errorClass)
    case Quarantine(errorClass) =>
      Entry(e.recordId, e.message, Quarantined, None, e.claimGeneration, None, e.attemptCount, Some(errorClass),
            e.publicationReceipt)
  }

  /** Beside the expiry of other claims, an accepted call changes exactly its own record, as stated. */
  lemma UnderClaimOutcome(l: Ledger, c: OutboxClaim, action: ClaimAction, now: int)
    requires Inv(l)
    ensures var o, l' := UnderClaim(l, c, action, now), ExpireClaims(l, now);
            && (o.answer.Ok? <==> InputValid(action) && Holds(l, c, now))
            && (!InputValid(action) ==> o == Outcome(l, Err(ValueError)))
            && (InputValid(action) && !Holds(l, c, now) ==> o == Outcome(l', Err(InvalidTransition)))
            && (o.answer.Ok? ==>
                  && o.state.nextId == l.nextId && o.state.byMessage == l.byMessage
                  && o.state.byId == l'.byId[c.recordId := Acted(l.byId[c.recordId], action)])
  {
    if c.recordId in l.byId {
      assert EntrySound(l.byId[c.recordId]);
    }
  }

  // ----- Which records are closed -----

  /** The actions that were accepted for this record, in order. */
  function AcceptedFor(l: Ledger, calls: seq<Call>, id: nat): seq<ClaimAction>
    decreases |calls|
  {
    if calls == [] then []
    else
      var rest := AcceptedFor(Step(l, calls[0]).state, calls[1..], id);
      if calls[0].CallUnder? && calls[0].claim.recordId == id && Step(l, calls[0]).answer.Ok? then
        [calls[0].action] + rest
      else rest
  }

  /** The record is closed exactly by such an action, and shows the receipt or the error class it was closed with. */
  ghost predicate ClosedBy(e: Entry, actions: seq<ClaimAction>) {
    && (e.state.Published? <==> exists a :: a in actions && a.Publish?)
    && (e.state.Published? ==> exists a :: a in actions && a.Publish? && e.publicationReceipt == Some(a.receipt))
    && (e.state.Quarantined? <==> exists a :: a in actions && a.Quarantine?)
    && (e.state.Quarantined? ==> exists a :: a in actions && a.Quarantine? && e.lastErrorClass == Some(a.errorClass))
  }

  /** What one call can do to a record that is not closed. */
  lemma OpenRecordStep(l: Ledger, c: Call, id: nat)
    requires Inv(l) && id in l.byId && !l.byId[id].state.Published? && !l.byId[id].state.Quarantined?
    ensures id in Step(l, c).state.byId
    ensures var e', accepted := Step(l, c).state.byId[id],
                                c.CallUnder? && c.claim.recordId == id && Step(l, c).answer.Ok?;
            && (e'.state.Published? <==> accepted && c.action.Publish?)
            && (e'.state.Published? ==> e'.publicationReceipt == Some(c.action.receipt))
            && (e'.state.Quarantined? <==> accepted && c.action.Quarantine?)
            && (e'.state.Quarantined? ==> e'.lastErrorClass == Some(c.action.errorClass))
  {
    match c
    case CallAppend(_) =>
    case CallClaim(owner, now, expires) => ClaimOutcome(l, owner, now, expires);
    case CallUnder(claim, action, now) => UnderClaimOutcome(l, claim, action, now);
    case CallPending(_) =>
  }

  lemma ClosedIsNeverActedOn(l: Ledger, c: Call, id: nat)
    requires Inv(l) && id in l.byId && (l.byId[id].state.Published? || l.byId[id].state.Quarantined?)
    ensures !(c.CallUnder? && c.claim.recordId == id && Step(l, c).answer.Ok?)
    ensures id in Step(l, c).state.byId && Step(l, c).state.byId[id] == l.byId[id]
  {
    if c.CallUnder? {
      UnderClaimOutcome(l, c.claim, c.action, c.now);
    }
    FinalEntriesStay(l, [c], id);
    assert Run(l, [c]) == Run(Step(l, c).state, []);
  }

  lemma {:induction false} NothingAcceptedForClosed(l: Ledger, calls: seq<Call>, id: nat)
    requires Inv(l) && id in l.byId && (l.byId[id].state.Published? || l.byId[id].state.Quarantined?)
    ensures AcceptedFor(l, calls, id) == []
    decreases |calls|
  {
    if calls != [] {
      ClosedIsNeverActedOn(l, calls[0], id);
      StepKeepsInv(l, calls[0]);
      NothingAcceptedForClosed(Step(l, calls[0]).state, calls[1..], id);
    }
  }

  lemma {:induction false} OpenRecordRun(l: Ledger, calls: seq<Call>, id: nat)
    requires Inv(l) && id in l.byId && !l.byId[id].state.Published? && !l.byId[id].state.Quarantined?
    ensures id in Run(l, calls).byId
    ensures ClosedBy(Run(l, calls).byId[id], AcceptedFor(l, calls, id))
    decreases |calls|
  {
    if calls != [] {
      var l' := Step(l, calls[0]).state;
      OpenRecordStep(l, calls[0], id);
      StepKeepsInv(l, calls[0]);
      if l'.byId[id].state.Published? || l'.byId[id].state.Quarantined? {
        NothingAcceptedForClosed(l', calls[1..], id);
        FinalEntriesStay(l', calls[1..], id);
        assert AcceptedFor(l, calls, id) == [calls[0].action];
        assert calls[0].action in AcceptedFor(l, calls, id);
      } else {
        OpenRecordRun(l', calls[1..], id);
        StillOpen(Run(l, calls).byId[id], calls[0], AcceptedFor(l', calls[1..], id), AcceptedFor(l, calls, id));
      }
    }
  }

  lemma StillOpen(e: Entry, c: Call, rest: seq<ClaimAction>, all: seq<ClaimAction>)
    requires ClosedBy(e, rest)
    requires all == rest
          || (c.CallUnder? && !c.action.Publish? && !c.action.Quarantine? && all == [c.action] + rest)
    ensures ClosedBy(e, all)
  {
    assert forall a: ClaimAction | a.Publish? || a.Quarantine? :: a in all <==> a in rest;
  }

  lemma {:induction false} NewRecordRun(l: Ledger, calls: seq<Call>, id: nat)
    requires Inv(l) && id !in l.byId && id in Run(l, calls).byId
    ensures ClosedBy(Run(l, calls).byId[id], AcceptedFor(l, calls, id))
    decreases |calls|
  {
    var l' := Step(l, calls[0]).state;
    StepKeepsInv(l, calls[0]);
    StepIsLedgerStep(l, calls[0]);
    if calls[0].CallUnder? {
      UnderClaimOutcome(l, calls[0].claim, calls[0].action, calls[0].now);
    }
    if id in l'.byId {
      OpenRecordRun(l', calls[1..], id);
    } else {
      NewRecordRun(l', calls[1..], id);
    }
  }

  /**
   In every run a record is published exactly if a publication was accepted for it, with that receipt, and quarantined
   exactly if a quarantine was accepted, under that error class; otherwise it is pending or claimed.
   */
  lemma ClosedOnlyByAcceptedCalls(calls: seq<Call>, id: nat)
    requires id in Run(EMPTY, calls).byId
    ensures ClosedBy(Run(EMPTY, calls).byId[id], AcceptedFor(EMPTY, calls, id))
  {
    NewRecordRun(EMPTY, calls, id);
  }

  // ----- At least once -----

  function LatestLease(l: Ledger, n: nat): int {
    if n == 0 then 0
    else
      var rest := LatestLease(l, n - 1);
      if n in l.byId && l.byId[n].claimExpiresAt.Some? then Max(rest, l.byId[n].claimExpiresAt.value) else rest
  }

  lemma {:induction false} LeasesEnd(l: Ledger, n: nat, id: nat)
    requires 1 <= id <= n && id in l.byId && l.byId[id].claimExpiresAt.Some?
    ensures l.byId[id].claimExpiresAt.value <= LatestLease(l, n)
  {
    if id < n {
      LeasesEnd(l, n - 1, id);
    }
  }

  const DISPATCHER := "d"

  /** Claims at one moment, one after the other, each for longer than that moment. */
  function ClaimsAt(now: int, n: nat): seq<Call> {
    if n == 0 then [] else [CallClaim(DISPATCHER, now, now + 1)] + ClaimsAt(now, n - 1)
  }

  lemma {:induction false} ClaimsReach(l: Ledger, now: int, k: nat)
    requires NoneOver(l, now) && k < |PendingIds(l)|
    ensures |ClaimsOf(l, ClaimsAt(now, k + 1))| == k + 1
    ensures ClaimsOf(l, ClaimsAt(now, k + 1))[k].recordId == PendingIds(l)[k]
    decreases k
  {
    var call, id := CallClaim(DISPATCHER, now, now + 1), PendingIds(l)[0];
    var l' := Step(l, call).state;
    assert ValidIdentifier(DISPATCHER);
    NothingToExpire(l, now);
    ClaimTakesHead(l, DISPATCHER, now, now + 1);
    assert ClaimsAt(now, k + 1)[1..] == ClaimsAt(now, k);
    if k > 0 {
      ClaimsReach(l', now, k - 1);
    }
  }

  /**
   No record that is not closed is lost: from every ledger a run can reach there are further calls, which are claims
   only, the last of which hands this record out with the message it was appended with.
   */
  lemma EveryOpenRecordIsHandedOut(calls: seq<Call>, id: nat)
    requires var l := Run(EMPTY, calls);
             id in l.byId && !l.byId[id].state.Published? && !l.byId[id].state.Quarantined?
    ensures exists now, n ::
              var claims := ClaimsOf(Run(EMPTY, calls), [CallPending(Some(now))] + ClaimsAt(now, n));
              claims != [] && HandsOut(claims[|claims| - 1], Run(EMPTY, calls), id)
  {
    var l := Run(EMPTY, calls);
    RunKeepsInv(EMPTY, calls);
    var now := LatestLease(l, l.nextId - 1);
    OpenBecomesPending(l, now, id);
    var l' := ExpireClaims(l, now);
    PendingExact(l', 1, id);
    var k :| 0 <= k < |PendingIds(l')| && PendingIds(l')[k] == id;
    AllClaimsOver(l, now);
    ClaimsReach(l', now, k);
    ExpireKeepsInv(l, now);
    ClaimsAfterListing(l, now, ClaimsAt(now, k + 1));
    LastClaimHandsOut(l, now, ClaimsAt(now, k + 1), ClaimsOf(l', ClaimsAt(now, k + 1)), id);
  }

  lemma OpenBecomesPending(l: Ledger, now: int, id: nat)
    requires Inv(l) && id in l.byId && !l.byId[id].state.Published? && !l.byId[id].state.Quarantined?
    requires now >= LatestLease(l, l.nextId - 1)
    ensures IsPending(ExpireClaims(l, now), id)
  {
    assert EntrySound(l.byId[id]);
    if l.byId[id].state.Claimed? {
      LeasesEnd(l, l.nextId - 1, id);
    }
    ExpiryGivesBack(l, now);
  }

  lemma AllClaimsOver(l: Ledger, now: int)
    ensures NoneOver(ExpireClaims(l, now), now)
  {
    ExpiryGivesBack(l, now);
  }

  lemma ClaimsAfterListing(l: Ledger, now: int, calls: seq<Call>)
    ensures ClaimsOf(l, [CallPending(Some(now))] + calls) == ClaimsOf(ExpireClaims(l, now), calls)
  {
    assert ([CallPending(Some(now))] + calls)[1..] == calls;
  }

  lemma LastClaimHandsOut(l: Ledger, now: int, calls: seq<Call>, claims: seq<OutboxClaim>, id: nat)
    requires Inv(ExpireClaims(l, now)) && id in l.byId
    requires claims == ClaimsOf(ExpireClaims(l, now), calls)
    requires claims != [] && claims[|claims| - 1].recordId == id
    ensures HandsOut(claims[|claims| - 1], l, id)
  {
    ExpiryGivesBack(l, now);
    ClaimsShowMessages(ExpireClaims(l, now), calls, |claims| - 1);
  }

  /** Every claim hands out the message of its record. */
  lemma {:induction false} ClaimsShowMessages(l: Ledger, calls: seq<Call>, i: nat)
    requires Inv(l) && i < |ClaimsOf(l, calls)| && ClaimsOf(l, calls)[i].recordId in l.byId
    ensures ClaimsOf(l, calls)[i].message == l.byId[ClaimsOf(l, calls)[i].recordId].message
    decreases |calls|
  {
    var c, l' := calls[0], Step(l, calls[0]).state;
    var granted := GrantedClaim(Step(l, c).answer);
    StepIsLedgerStep(l, c);
    StepKeepsInv(l, c);
    var id := ClaimsOf(l, calls)[i].recordId;
    assert Transition(l.byId[id], l'.byId[id], GrantedFor(Step(l, c).answer, id));
    if granted.None? {
      ClaimsShowMessages(l', calls[1..], i);
    } else if i > 0 {
      ClaimsShowMessages(l', calls[1..], i - 1);
    }
  }
}
