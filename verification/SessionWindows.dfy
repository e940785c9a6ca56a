/**
 When a session resolves, what issuing and rotating make of it, and how long it lives: all conditions and all fields
 written out, and carried through every interleaved run.
 */
module SessionWindows {
  import opened Foundation
  import opened Sessions

  /** Neither retired nor of an inactive principal, and inside its time: the end itself is outside. */
  predicate Open(r: SessionRecord, now: int) {
    r.retired == false && r.principal.active && r.createdAt <= now && now < r.expiresAt
  }

  predicate Stored(t: Table, digest: string) {
    digest in t && t[digest].digest == digest
  }

  lemma ResolveOutcome(t: Table, digest: string, now: int)
    ensures var r := ResolveCurrent(t, digest, now);
            && (r.Ok? <==> Stored(t, digest) && Open(t[digest], now))
            && (r.Ok? ==> r.value == t[digest])
            && (r.Err? ==> r.error == AdmissionDenied)
  {
  }

  // ----- New records -----

  /** Evidence that may be taken over into a session of this principal: its own, for its present credential. */
  predicate BelongsTo(strength: Option<StrengthEvidence>, p: Principal) {
    strength.Some? ==>
      && strength.value.principalId == Some(p.principalId)
      && strength.value.credentialGeneration == Some(p.credentialGeneration)
  }

  predicate Issuable(p: Principal, generation: string, lifetime: int, strength: Option<StrengthEvidence>) {
    && lifetime > 0
    && p.kind in {HumanBrowserSession, PlatformAdmin}
    && BelongsTo(strength, p)
    && ValidIdentifier(p.principalId) && ValidIdentifier(generation)
  }

  /** The session: bound to its own fresh generation, unretired, from now on for exactly the lifetime. */
  function Session(
    digest: string, generation: string, p: Principal, now: int, lifetime: int, strength: Option<StrengthEvidence>)
    : SessionRecord
  {
    SessionRecord(
      digest, Principal(p.principalId, p.kind, generation, p.active), generation, now, now + lifetime, false,
      if strength.None? then None
      else Some(StrengthEvidence(strength.value.principalId, Some(generation), strength.value.detail)))
  }

  lemma NewRecordOutcome(
    digest: string, generation: string, p: Principal, now: int, lifetime: int, strength: Option<StrengthEvidence>)
    ensures var r := NewRecord(digest, generation, p, now, lifetime, strength);
            && (r.Ok? <==> Issuable(p, generation, lifetime, strength))
            && (r.Ok? ==> r.value == Session(digest, generation, p, now, lifetime, strength))
            && (lifetime <= 0 ==> r == Err(ValueError))
            && (lifetime > 0 && p.kind == OtherKind ==> r == Err(AdmissionDenied))
            && (lifetime > 0 && p.kind != OtherKind && !BelongsTo(strength, p) ==> r == Err(AdmissionDenied))
  {
  }

  /** The first draw that does not collide is stored; nothing else changes, and if all collide nothing does. */
  lemma {:induction false} IssueOutcome(
    t: Table, draws: seq<(string, string)>, p: Principal, now: int, lifetime: int, strength: Option<StrengthEvidence>)
    requires forall i | 0 <= i < |draws| :: Issuable(p, draws[i].1, lifetime, strength)
    ensures var r := IssueFrom(t, draws, p, now, lifetime, strength);
            && (r.answer.Ok? ==>
                  exists k | 0 <= k < |draws| ::
                    && draws[k].0 == r.answer.value && draws[k].0 !in t
                    && (forall j | 0 <= j < k :: draws[j].0 in t)
                    && r.state == t[draws[k].0 := Session(draws[k].0, draws[k].1, p, now, lifetime, strength)])
            && (r.answer.Err? ==>
                  r == Outcome(t, Err(AdmissionDenied)) && forall j | 0 <= j < |draws| :: draws[j].0 in t)
    decreases |draws|
  {
    if draws != [] {
      NewRecordOutcome(draws[0].0, draws[0].1, p, now, lifetime, strength);
      if draws[0].0 in t {
        IssueOutcome(t, draws[1..], p, now, lifetime, strength);
        var r := IssueFrom(t, draws[1..], p, now, lifetime, strength);
        if r.answer.Ok? {
          var k :| 0 <= k < |draws[1..]|
                   && draws[1..][k].0 == r.answer.value && draws[1..][k].0 !in t
                   && (forall j | 0 <= j < k :: draws[1..][j].0 in t)
                   && r.state == t[draws[1..][k].0 :=
                                   Session(draws[1..][k].0, draws[1..][k].1, p, now, lifetime, strength)];
          ShiftedDraw(t, draws, k);
        } else {
          forall j | 0 <= j < |draws| ensures draws[j].0 in t {
            assert j > 0 ==> draws[j] == draws[1..][j - 1];
          }
        }
      }
    }
  }

  lemma ShiftedDraw(t: Table, draws: seq<(string, string)>, k: nat)
    requires draws != [] && draws[0].0 in t && k < |draws[1..]|
    requires forall j | 0 <= j < k :: draws[1..][j].0 in t
    ensures draws[k + 1] == draws[1..][k] && forall j | 0 <= j < k + 1 :: draws[j].0 in t
  {
    forall j | 0 <= j < k + 1 ensures draws[j].0 in t {
      assert j > 0 ==> draws[j] == draws[1..][j - 1];
    }
  }

  // ----- Rotation and retirement -----

  /** Reauthentication may only be by the same principal, still active, with evidence of its own. */
  predicate Reauthenticates(q: RotateRequest, current: SessionRecord) {
    q.reauthenticated.Some? ==>
      && q.reauthenticated.value.active
      && q.reauthenticated.value.principalId == current.principal.principalId
      && q.reauthenticated.value.kind == current.principal.kind
  }

  /** After reauthentication old assurance is never inherited; otherwise it is, unless new evidence is given. */
  function StrengthFor(q: RotateRequest, current: SessionRecord): Option<StrengthEvidence> {
    if q.strength.Some? then q.strength
    else if q.reauthenticated.Some? then None
    else current.strength
  }

  function PrincipalFor(q: RotateRequest, current: SessionRecord): Principal {
    if q.reauthenticated.Some? then q.reauthenticated.value else current.principal
  }

  /** A rotation gets as far as the swap exactly for an open session; the swap's three arguments are these. */
  lemma RotationOutcome(t: Table, q: RotateRequest)
    ensures var i := PrepareRotation(t, q);
            && (i.Ok? <==>
                  && Stored(t, q.predecessor) && Open(t[q.predecessor], q.now)
                  && Reauthenticates(q, t[q.predecessor])
                  && Issuable(PrincipalFor(q, t[q.predecessor]), q.successorGeneration, q.lifetime,
                              StrengthFor(q, t[q.predecessor])))
            && (i.Ok? ==>
                  var current := t[q.predecessor];
                  i.value == Rotating(q.predecessor, current.generation,
                                      Session(q.successorDigest, q.successorGeneration, PrincipalFor(q, current), q.now,
                                              q.lifetime, StrengthFor(q, current))))
  {
    if Stored(t, q.predecessor) {
      NewRecordOutcome(q.successorDigest, q.successorGeneration, PrincipalFor(q, t[q.predecessor]), q.now, q.lifetime,
                       StrengthFor(q, t[q.predecessor]));
    }
  }

  lemma RetirementOutcome(t: Table, digest: string, now: int)
    ensures var i := PrepareRetirement(t, digest, now);
            && (i.Ok? <==> Stored(t, digest) && Open(t[digest], now))
            && (i.Ok? ==> i.value == Retiring(digest, t[digest].generation))
            && (i.Err? ==> i.error == AdmissionDenied)
  {
  }

  /** The same record, retired. */
  function RetiredRecord(r: SessionRecord): SessionRecord {
    SessionRecord(r.digest, r.principal, r.generation, r.createdAt, r.expiresAt, true, r.strength)
  }

  lemma SwapOutcome(t: Table, digest: string, generation: string, successor: SessionRecord)
    ensures var wins := digest in t && t[digest].retired == false && t[digest].generation == generation;
            && Rotate(t, digest, generation, successor) ==
               (if wins then (t[digest := RetiredRecord(t[digest])][successor.digest := successor], true)
                else (t, false))
            && Retire(t, digest, generation) ==
               (if wins then (t[digest := RetiredRecord(t[digest])], true) else (t, false))
  {
  }

  // ----- Lifetimes over runs -----

  lemma SwapOnlyRetires(t: Table, digest: string, generation: string, successor: SessionRecord)
    ensures OnlyRetires(t, Retire(t, digest, generation).0)
    ensures successor.digest !in t ==> OnlyRetires(t, Rotate(t, digest, generation, successor).0)
  {
  }

  lemma CommitOnlyRetires(w: World, client: nat)
    requires Allowed(w, Commit(client))
    ensures OnlyRetires(w.table, After(w, Commit(client)).table)
  {
    if client in w.intents {
      var i, w' := w.intents[client], w.(intents := w.intents - {client});
      if i.Rotating? {
        SwapOnlyRetires(w.table, i.predecessor, i.expectedGeneration, i.successor);
        assert AfterRotation(w', i).table == Rotate(w.table, i.predecessor, i.expectedGeneration, i.successor).0;
      } else {
        SwapOnlyRetires(w.table, i.predecessor, i.expectedGeneration,
                        Session("", "", Principal("", OtherKind, "", false), 0, 0, None));
        assert AfterRetirement(w', i).table == Retire(w.table, i.predecessor, i.expectedGeneration).0;
      }
    }
  }

  lemma StepOnlyRetires(w: World, e: Event)
    requires Allowed(w, e)
    ensures OnlyRetires(w.table, After(w, e).table)
  {
    match e
    case IssueSession(_, _, _, _, _, _) =>
    case StartRotation(_, _) =>
    case StartRetirement(_, _, _) =>
    case Commit(client) => CommitOnlyRetires(w, client);
  }

  lemma {:induction false} RunOnlyRetires(w: World, events: seq<Event>)
    requires Inv(w) && AllowedRun(w, events)
    ensures OnlyRetires(w.table, Run(w, events).table)
    decreases |events|
  {
    if events != [] {
      StepOnlyRetires(w, events[0]);
      StepKeepsInv(w, events[0]);
      RunOnlyRetires(After(w, events[0]), events[1..]);
    }
  }

  lemma StoredSessionLives(w: World, later: seq<Event>, digest: string, now: int)
    requires Inv(w) && AllowedRun(w, later) && digest in w.table
    ensures var r, t := w.table[digest], Run(w, later).table;
            && digest in t
            && (ResolveCurrent(t, digest, now).Ok? <==>
                  !t[digest].retired && r.principal.active && r.createdAt <= now < r.expiresAt)
  {
    RunOnlyRetires(w, later);
    RunKeepsInv(w, later);
    assert PlacedSound(Run(w, later), digest);
    ResolveOutcome(Run(w, later).table, digest, now);
  }

  /** In every run, a stored session of an active principal resolves, while it is unretired, exactly in its own time. */
  lemma SessionsLiveInTheirWindow(before: seq<Event>, later: seq<Event>, digest: string, now: int)
    requires AllowedRun(EMPTY, before) && AllowedRun(Run(EMPTY, before), later)
    requires digest in Run(EMPTY, before).table
    ensures var r, t := Run(EMPTY, before).table[digest], Run(Run(EMPTY, before), later).table;
            && digest in t
            && (ResolveCurrent(t, digest, now).Ok? <==>
                  !t[digest].retired && r.principal.active && r.createdAt <= now < r.expiresAt)
  {
    RunKeepsInv(EMPTY, before);
    StoredSessionLives(Run(EMPTY, before), later, digest, now);
  }

  lemma IssuingStores(w: World, e: Event)
    requires Inv(w) && e.IssueSession? && e.digest !in w.table
    requires Issuable(e.principal, e.generation, e.lifetime, e.strength)
    ensures Inv(After(w, e)) && e.digest in After(w, e).table
    ensures After(w, e).table[e.digest] == Session(e.digest, e.generation, e.principal, e.now, e.lifetime, e.strength)
  {
    NewRecordOutcome(e.digest, e.generation, e.principal, e.now, e.lifetime, e.strength);
    StepKeepsInv(w, e);
  }

  /**
   End to end: a session issued at t for n resolves after any further calls, while it is unretired, exactly at the times
   from t on and before t + n.
   */
  lemma IssuedSessionLives(before: seq<Event>, e: Event, later: seq<Event>, now: int)
    requires AllowedRun(EMPTY, before) && e.IssueSession? && e.digest !in Run(EMPTY, before).table
    requires Issuable(e.principal, e.generation, e.lifetime, e.strength) && e.principal.active
    requires AllowedRun(After(Run(EMPTY, before), e), later)
    ensures var table := Run(After(Run(EMPTY, before), e), later).table;
            && e.digest in table
            && (ResolveCurrent(table, e.digest, now).Ok? <==>
                  !table[e.digest].retired && e.now <= now < e.now + e.lifetime)
  {
    RunKeepsInv(EMPTY, before);
    IssuingStores(Run(EMPTY, before), e);
    StoredSessionLives(After(Run(EMPTY, before), e), later, e.digest, now);
  }
}
