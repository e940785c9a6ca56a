/**
 The outbox as the program keeps it: a counter, one mutable entry per record id, and an index from
 message identities to record ids. Loops visit the records in ascending order of their ids, which is the
 order in which they were inserted.
 */
module OutboxLedger {
  import opened Foundation
  import S = OutboxSpec
  import P = OutboxProofs

  class OutboxEntry {
    const recordId: nat
    const message: S.LogicalMessage
    var state: S.DispatchState
    var claimOwner: Option<string>
    var claimGeneration: nat
    var claimExpiresAt: Option<int>
    var attemptCount: nat
    var lastErrorClass: Option<string>
    var publicationReceipt: Option<S.PublicationReceipt>

    constructor (recordId: nat, message: S.LogicalMessage)
      ensures Value() == S.NewEntry(recordId, message)
    {
      this.recordId, this.message := recordId, message;
      state, claimOwner, claimGeneration, claimExpiresAt := S.Pending, None, 0, None;
      attemptCount, lastErrorClass, publicationReceipt := 0, None, None;
    }

    ghost function Value(): S.Entry
      reads this
    {
      S.Entry(recordId, message, state, claimOwner, claimGeneration, claimExpiresAt, attemptCount, lastErrorClass,
              publicationReceipt)
    }

    method Release(errorClass: string)
      modifies this
      ensures Value() == S.Release(old(Value()), errorClass)
    {
      state, claimOwner, claimExpiresAt, lastErrorClass := S.Pending, None, None, Some(errorClass);
    }

    method Lapse(now: int)
      modifies this
      ensures Value() == S.LapseAt(old(Value()), now)
    {
      if state.Claimed? && claimExpiresAt.Some? && claimExpiresAt.value <= now {
        Release(S.CLAIM_EXPIRED);
      }
    }

    method Grab(ownerId: string, expires: int)
      modifies this
      ensures Value() == S.Grab(old(Value()), ownerId, expires)
    {
      state := S.Claimed;
      claimOwner := Some(ownerId);
      claimGeneration := claimGeneration + 1;
      claimExpiresAt := Some(expires);
      attemptCount := attemptCount + 1;
    }

    /** What each call does once its claim has been accepted. */
    method Act(action: S.ClaimAction)
      modifies this
      ensures Value() == S.Apply(old(Value()), action)
    {
      match action {
        case Publish(receipt) =>
          state, publicationReceipt := S.Published, Some(receipt);
          claimOwner, claimExpiresAt, lastErrorClass := None, None, None;
        case ReportAmbiguous => Release(S.PUBLICATION_AMBIGUOUS);
        case Quarantine(errorClass) =>
          Release(errorClass);
          state := S.Quarantined;
        case ReleaseClaim(errorClass) => Release(errorClass);
      }
    }
  }

  /** The ledger in which the claims of the records before `bound` have been let lapse. */
  function ExpiredBelow(l: S.Ledger, now: int, bound: nat): S.Ledger {
    l.(byId := map id | id in l.byId :: if id < bound then S.LapseAt(l.byId[id], now) else l.byId[id])
  }

  lemma ExpireOneMore(l: S.Ledger, now: int, id: nat)
    requires id in l.byId
    ensures ExpiredBelow(l, now, id).byId[id] == l.byId[id]
    ensures S.Put(ExpiredBelow(l, now, id), id, S.LapseAt(l.byId[id], now)) == ExpiredBelow(l, now, id + 1)
  {
    var after := ExpiredBelow(l, now, id).byId[id := S.LapseAt(l.byId[id], now)];
    assert after == ExpiredBelow(l, now, id + 1).byId;
  }

  lemma ExpiredBelowEnds(l: S.Ledger, now: int)
    requires forall id | id in l.byId :: 1 <= id < l.nextId
    ensures ExpiredBelow(l, now, 1) == l
    ensures ExpiredBelow(l, now, l.nextId) == S.ExpireClaims(l, now)
  {
    assert ExpiredBelow(l, now, 1).byId == l.byId;
    assert ExpiredBelow(l, now, l.nextId).byId == S.ExpireClaims(l, now).byId;
  }

  lemma CollectOneMore(l: S.Ledger, messages: seq<S.LogicalMessage>, id: nat)
    requires id in l.byId && id < l.nextId
    ensures messages + S.PendingMessagesFrom(l, id)
         == (if l.byId[id].state.Pending? then messages + [l.byId[id].message] else messages)
            + S.PendingMessagesFrom(l, id + 1)
  {
    var rest := S.PendingMessagesFrom(l, id + 1);
    assert messages + ([l.byId[id].message] + rest) == (messages + [l.byId[id].message]) + rest;
  }

  class OutboxLedger {
    var nextId: nat
    var byId: map<nat, OutboxEntry>
    var byMessage: map<(string, string), nat>

    /** No two ids share an entry, ids are exactly 1 .. nextId - 1, and the index names existing records. */
    ghost predicate Linked()
      reads this
    {
      && (forall i, j | i in byId && j in byId && i != j :: byId[i] != byId[j])
      && nextId >= 1
      && (forall i: nat :: i in byId <==> 1 <= i < nextId)
      && (forall m | m in byMessage :: byMessage[m] in byId)
    }

    ghost function Contents(): S.Ledger
      reads this, byId.Values
    {
      S.Ledger(nextId, map id | id in byId :: byId[id].Value(), byMessage)
    }

    ghost predicate Valid()
      reads this, byId.Values
    {
      Linked() && P.Inv(Contents())
    }

    constructor ()
      ensures Valid() && Contents() == S.EMPTY && byId == map[]
    {
      nextId, byId, byMessage := 1, map[], map[];
    }

    method AppendCommitted(message: S.LogicalMessage) returns (r: Result<nat>)
      requires Valid()
      modifies this
      ensures Valid() && fresh(byId.Values - old(byId.Values))
      ensures Outcome(Contents(), r) == S.Append(old(Contents()), message)
    {
      P.AppendKeepsInv(Contents(), message);
      r := FindOrInsert(message);
    }

    method FindOrInsert(message: S.LogicalMessage) returns (r: Result<nat>)
      requires Linked()
      modifies this
      ensures Linked() && fresh(byId.Values - old(byId.Values))
      ensures Outcome(Contents(), r) == S.Append(old(Contents()), message)
    {
      if message.Identity() in byMessage {
        var existing := byMessage[message.Identity()];
        var original := byId[existing].message;
        assert Contents().byId[existing].message == original;
        if !original.comparisonEvidence.RelationTo(message.comparisonEvidence).Equivalent? || original != message {
          return Err(InvalidTransition);
        }
        return Ok(existing);
      }
      var recordId := Insert(message);
      return Ok(recordId);
    }

    method Insert(message: S.LogicalMessage) returns (recordId: nat)
      requires Linked() && message.Identity() !in byMessage
      modifies this
      ensures Linked() && fresh(byId.Values - old(byId.Values))
      ensures Outcome(Contents(), Ok(recordId)) == S.Append(old(Contents()), message)
    {
      ghost var before := Contents();
      recordId := nextId;
      var entry := new OutboxEntry(recordId, message);
      assert Contents() == before;
      nextId := nextId + 1;
      byId := byId[recordId := entry];
      byMessage := byMessage[message.Identity() := recordId];
      assert Contents().byId == before.byId[recordId := entry.Value()];
    }

    method LapseEntry(id: nat, now: int)
      requires Linked() && id in byId
      modifies byId[id]
      ensures Linked()
      ensures Contents() == S.Put(old(Contents()), id, S.LapseAt(old(byId[id].Value()), now))
    {
      byId[id].Lapse(now);
      assert Contents().byId == old(Contents()).byId[id := byId[id].Value()];
    }

    method ExpireClaims(now: int)
      requires Linked()
      modifies byId.Values
      ensures Linked()
      ensures Contents() == S.ExpireClaims(old(Contents()), now)
    {
      ghost var before := Contents();
      ExpiredBelowEnds(before, now);
      for id := 1 to nextId
        invariant Contents() == ExpiredBelow(before, now, id)
      {
        assert byId[id].Value() == Contents().byId[id];
        ExpireOneMore(before, now, id);
        LapseEntry(id, now);
      }
    }

    method ClaimNext(ownerId: string, now: int, expires: int) returns (r: Result<Option<S.OutboxClaim>>)
      requires Valid()
      modifies byId.Values
      ensures Valid()
      ensures Outcome(Contents(), r) == S.ClaimNext(old(Contents()), ownerId, now, expires)
    {
      if !ValidIdentifier(ownerId) || expires <= now {
        return Err(ValueError);
      }
      P.ClaimKeepsInv(Contents(), ownerId, now, expires);
      ExpireClaims(now);
      var claim := GrabFirst(ownerId, expires);
      return Ok(claim);
    }

    /** Scan in ascending order and take the first pending record. */
    method GrabFirst(ownerId: string, expires: int) returns (claim: Option<S.OutboxClaim>)
      requires Linked()
      modifies byId.Values
      ensures Linked()
      ensures var l := old(Contents());
              var id := S.FirstPending(l, 1);
              if id.None? then claim == None && Contents() == l
              else
                var e := S.Grab(l.byId[id.value], ownerId, expires);
                && Contents() == S.Put(l, id.value, e)
                && claim == Some(S.OutboxClaim(id.value, ownerId, e.claimGeneration, expires, e.message))
    {
      ghost var l := Contents();
      for recordId := 1 to nextId
        invariant Contents() == l
        invariant S.FirstPending(l, 1) == S.FirstPending(l, recordId)
      {
        var entry := byId[recordId];
        assert entry.Value() == l.byId[recordId];
        if entry.state.Pending? {
          entry.Grab(ownerId, expires);
          assert Contents().byId == l.byId[recordId := entry.Value()];
          return Some(S.OutboxClaim(recordId, ownerId, entry.claimGeneration, expires, entry.message));
        }
      }
      return None;
    }

    /** The four calls made under a claim differ only in their input check and in what they do to the entry. */
    method UnderClaim(claim: S.OutboxClaim, action: S.ClaimAction, now: int) returns (r: Result<()>)
      requires Valid()
      modifies byId.Values
      ensures Valid()
      ensures Outcome(Contents(), r) == S.UnderClaim(old(Contents()), claim, action, now)
    {
      if !S.ActionInputValid(action) {
        return Err(ValueError);
      }
      P.UnderKeepsInv(Contents(), claim, action, now);
      ExpireClaims(now);
      r := ActOnCurrent(claim, action);
    }

    method ActOnCurrent(claim: S.OutboxClaim, action: S.ClaimAction) returns (r: Result<()>)
      requires Linked()
      modifies byId.Values
      ensures Linked()
      ensures var l, id := old(Contents()), claim.recordId;
              if id !in l.byId || !S.HeldBy(l.byId[id], claim) then Contents() == l && r == Err(InvalidTransition)
              else Contents() == S.Put(l, id, S.Apply(l.byId[id], action)) && r == Ok(())
    {
      if claim.recordId !in byId {
        return Err(InvalidTransition);
      }
      var entry := byId[claim.recordId];
      assert entry.Value() == Contents().byId[claim.recordId];
      if || !entry.state.Claimed?
         || entry.claimOwner != Some(claim.ownerId)
         || entry.claimGeneration != claim.claimGeneration
         || entry.claimExpiresAt != Some(claim.claimExpiresAt)
      {
        return Err(InvalidTransition);
      }
      entry.Act(action);
      assert Contents().byId == old(Contents()).byId[claim.recordId := entry.Value()];
      return Ok(());
    }

    method PendingMessages(observedAt: Option<int>) returns (r: Result<seq<S.LogicalMessage>>)
      requires Valid()
      modifies byId.Values
      ensures Valid()
      ensures Outcome(Contents(), r) == S.PendingMessages(old(Contents()), observedAt)
    {
      if observedAt.Some? {
        P.ExpireKeepsInv(Contents(), observedAt.value);
        ExpireClaims(observedAt.value);
      }
      var messages := CollectPending();
      return Ok(messages);
    }

    method CollectPending() returns (messages: seq<S.LogicalMessage>)
      requires Linked()
      ensures messages == S.PendingMessagesFrom(Contents(), 1)
    {
      messages := [];
      ghost var l := Contents();
      for recordId := 1 to nextId
        invariant messages + S.PendingMessagesFrom(l, recordId) == S.PendingMessagesFrom(l, 1)
      {
        var entry := byId[recordId];
        assert entry.Value() == l.byId[recordId];
        CollectOneMore(l, messages, recordId);
        if entry.state.Pending? {
          messages := messages + [entry.message];
        }
      }
    }
  }
}
