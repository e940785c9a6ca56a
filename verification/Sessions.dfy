/**
 Browser sessions. Rotating and retiring first resolve the session and later swap it, and any number of
 them interleave. Every win moves a session lineage on by one record.
 */
module Sessions {
  import opened Foundation

  datatype PrincipalKind = HumanBrowserSession | PlatformAdmin | OtherKind

  datatype Principal = Principal(principalId: string, kind: PrincipalKind, credentialGeneration: string, active: bool)

  /** `detail` stands for issuer, class, methods, times and policy version, which are carried along unread. */
  datatype StrengthEvidence = StrengthEvidence(
    principalId: Option<string>, credentialGeneration: Option<string>, detail: string)

  datatype SessionRecord = SessionRecord(
    digest: string,
    principal: Principal,
    generation: string,
    createdAt: int,
    expiresAt: int,
    retired: bool,
    strength: Option<StrengthEvidence>)

  predicate Human(kind: PrincipalKind) { kind.HumanBrowserSession? || kind.PlatformAdmin? }

  /** Every rule the record constructor enforces; the digest format is left to the hash. */
  predicate RecordWellFormed(r: SessionRecord) {
    && r.generation != ""
    && Human(r.principal.kind)
    && r.principal.credentialGeneration == r.generation
    && (r.strength.Some? ==>
          && r.strength.value.principalId == Some(r.principal.principalId)
          && r.strength.value.credentialGeneration == Some(r.generation))
    && r.createdAt < r.expiresAt
  }

  predicate IsCurrent(r: SessionRecord, now: int) {
    !r.retired && r.principal.active && r.createdAt <= now < r.expiresAt
  }

  /** `digest` and `generation` are the freshly drawn handle and session generation. */
  function NewRecord(
    digest: string, generation: string, principal: Principal, now: int, lifetime: int,
    strength: Option<StrengthEvidence>): Result<SessionRecord>
  {
    if lifetime <= 0 then Err(ValueError)
    else if !Human(principal.kind) then Err(AdmissionDenied)
    else if strength.Some? && strength.value.principalId != Some(principal.principalId) then Err(AdmissionDenied)
    else if strength.Some? && strength.value.credentialGeneration != Some(principal.credentialGeneration) then
      Err(AdmissionDenied)
    else if !ValidIdentifier(principal.principalId) || !ValidIdentifier(generation) then Err(ValueError)
    else
      var rebound :=
        if strength.Some? then Some(strength.value.(credentialGeneration := Some(generation))) else None;
      Ok(SessionRecord(digest, principal.(credentialGeneration := generation), generation, now, now + lifetime, false,
                       rebound))
  }

  // ----- The store -----

  type Table = map<string, SessionRecord>

  function Rotate(t: Table, predecessor: string, expectedGeneration: string, successor: SessionRecord): (Table, bool) {
    if predecessor !in t || t[predecessor].retired || t[predecessor].generation != expectedGeneration then (t, false)
    else (t[predecessor := t[predecessor].(retired := true)][successor.digest := successor], true)
  }

  function Retire(t: Table, digest: string, expectedGeneration: string): (Table, bool) {
    if digest !in t || t[digest].retired || t[digest].generation != expectedGeneration then (t, false)
    else (t[digest := t[digest].(retired := true)], true)
  }

  function IssueFrom(
    t: Table, draws: seq<(string, string)>, principal: Principal, now: int, lifetime: int,
    strength: Option<StrengthEvidence>): Outcome<Table, string>
    decreases |draws|
  {
    if draws == [] then Outcome(t, Err(AdmissionDenied))
    else
      var record := NewRecord(draws[0].0, draws[0].1, principal, now, lifetime, strength);
      if record.Err? then Outcome(t, Err(record.error))
      else if draws[0].0 in t then IssueFrom(t, draws[1..], principal, now, lifetime, strength)
      else Outcome(t[draws[0].0 := record.value], Ok(draws[0].0))
  }

  // ----- Resolve first, swap later -----

  function ResolveCurrent(t: Table, digest: string, now: int): Result<SessionRecord> {
    if digest !in t || t[digest].digest != digest || !IsCurrent(t[digest], now) then Err(AdmissionDenied)
    else Ok(t[digest])
  }

  predicate StrengthOf(p: Principal, e: StrengthEvidence) {
    e.principalId == Some(p.principalId) && e.credentialGeneration == Some(p.credentialGeneration)
  }

  datatype RotateRequest = RotateRequest(
    predecessor: string, now: int, lifetime: int, strength: Option<StrengthEvidence>,
    reauthenticated: Option<Principal>, successorDigest: string, successorGeneration: string)

  datatype Intent =
    | Rotating(predecessor: string, expectedGeneration: string, successor: SessionRecord)
    | Retiring(predecessor: string, expectedGeneration: string)

  /** All that a rotation decides before it swaps. */
  function PrepareRotation(t: Table, q: RotateRequest): Result<Intent> {
    var found := ResolveCurrent(t, q.predecessor, q.now);
    if found.Err? then Err(found.error)
    else
      var current := found.value;
      if q.reauthenticated.Some? &&
         (|| !q.reauthenticated.value.active
          || q.reauthenticated.value.principalId != current.principal.principalId
          || q.reauthenticated.value.kind != current.principal.kind) then Err(AdmissionDenied)
      else
        var principal := if q.reauthenticated.Some? then q.reauthenticated.value else current.principal;
        var strength := if q.strength.Some? || q.reauthenticated.Some? then q.strength else current.strength;
        var successor :=
          NewRecord(q.successorDigest, q.successorGeneration, principal, q.now, q.lifetime, strength);
        if q.reauthenticated.Some? && strength.Some? && !StrengthOf(principal, strength.value) then Err(AdmissionDenied)
        else if successor.Err? then Err(successor.error)
        else Ok(Rotating(q.predecessor, current.generation, successor.value))
  }

  function PrepareRetirement(t: Table, digest: string, now: int): Result<Intent> {
    var found := ResolveCurrent(t, digest, now);
    if found.Err? then Err(found.error) else Ok(Retiring(digest, found.value.generation))
  }

  // ----- The store as the program keeps it -----

  class SessionStore {
    var values: map<string, SessionRecord>

    constructor ()
      ensures values == map[]
    {
      values := map[];
    }

    method Create(record: SessionRecord) returns (won: bool)
      modifies this
      ensures won <==> record.digest !in old(values)
      ensures values == if won then old(values)[record.digest := record] else old(values)
    {
      if record.digest in values {
        return false;
      }
      values := values[record.digest := record];
      return true;
    }

    method Resolve(digest: string) returns (r: Option<SessionRecord>)
      ensures r == if digest in values then Some(values[digest]) else None
    {
      if digest in values {
        return Some(values[digest]);
      }
      return None;
    }

    method RotateTo(predecessor: string, expectedGeneration: string, successor: SessionRecord) returns (won: bool)
      modifies this
      ensures (values, won) == Rotate(old(values), predecessor, expectedGeneration, successor)
    {
      var current := Resolve(predecessor);
      if current.None? || current.value.retired || current.value.generation != expectedGeneration {
        return false;
      }
      values := values[predecessor := current.value.(retired := true)];
      values := values[successor.digest := successor];
      return true;
    }

    method RetireSession(digest: string, expectedGeneration: string) returns (won: bool)
      modifies this
      ensures (values, won) == Retire(old(values), digest, expectedGeneration)
    {
      var current := Resolve(digest);
      if current.None? || current.value.retired || current.value.generation != expectedGeneration {
        return false;
      }
      values := values[digest := current.value.(retired := true)];
      return true;
    }

    /** Three draws of a handle and a generation; the first that does not collide is used. */
    method Issue(
      draws: seq<(string, string)>, principal: Principal, now: int, lifetime: int, strength: Option<StrengthEvidence>)
      returns (r: Result<string>)
      requires |draws| == 3
      modifies this
      ensures Outcome(values, r) == IssueFrom(old(values), draws, principal, now, lifetime, strength)
    {
      for k := 0 to 3
        invariant values == old(values)
        invariant IssueFrom(values, draws, principal, now, lifetime, strength)
               == IssueFrom(values, draws[k..], principal, now, lifetime, strength)
      {
        var record := NewRecord(draws[k].0, draws[k].1, principal, now, lifetime, strength);
        if record.Err? {
          return Err(record.error);
        }
        var won := Create(record.value);
        if won {
          return Ok(draws[k].0);
        }
      }
      return Err(AdmissionDenied);
    }

    /** A rotation that nothing interleaves with wins whenever it gets as far as the swap. */
    method RotateBrowserSession(q: RotateRequest) returns (r: Result<string>)
      modifies this
      ensures var i := PrepareRotation(old(values), q);
              if i.Err? then r == Err(i.error) && values == old(values)
              else
                && r == Ok(q.successorDigest)
                && (values, true) == Rotate(old(values), q.predecessor, i.value.expectedGeneration, i.value.successor)
    {
      var current := ResolveBrowserSession(q.predecessor, q.now);
      if current.Err? {
        return Err(current.error);
      }
      var principal := current.value.principal;
      var strength := if q.strength.Some? then q.strength else current.value.strength;
      if q.reauthenticated.Some? {
        if !q.reauthenticated.value.active {
          return Err(AdmissionDenied);
        }
        if || q.reauthenticated.value.principalId != principal.principalId
           || q.reauthenticated.value.kind != principal.kind
        {
          return Err(AdmissionDenied);
        }
        principal := q.reauthenticated.value;
        strength := q.strength;
        if strength.Some? && !StrengthOf(principal, strength.value) {
          return Err(AdmissionDenied);
        }
      }
      var successor := NewRecord(q.successorDigest, q.successorGeneration, principal, q.now, q.lifetime, strength);
      if successor.Err? {
        return Err(successor.error);
      }
      var won := RotateTo(q.predecessor, current.value.generation, successor.value);
      if !won {
        return Err(AdmissionDenied);
      }
      return Ok(q.successorDigest);
    }

    method ResolveBrowserSession(digest: string, now: int) returns (r: Result<SessionRecord>)
      ensures r == ResolveCurrent(values, digest, now)
    {
      var record := Resolve(digest);
      if record.None? || record.value.digest != digest {
        return Err(AdmissionDenied);
      }
      if !IsCurrent(record.value, now) {
        return Err(AdmissionDenied);
      }
      return Ok(record.value);
    }

    method RetireBrowserSession(digest: string, now: int) returns (r: Result<()>)
      modifies this
      ensures var i := PrepareRetirement(old(values), digest, now);
              if i.Err? then r == Err(i.error) && values == old(values)
              else r == Ok(()) && (values, true) == Retire(old(values), digest, i.value.expectedGeneration)
    {
      var current := ResolveBrowserSession(digest, now);
      if current.Err? {
        return Err(current.error);
      }
      var won := RetireSession(digest, current.value.generation);
      if !won {
        return Err(AdmissionDenied);
      }
      return Ok(());
    }
  }

  // ----- Interleaved runs -----

  /**
   `lineages` lists the handles of every issued session in the order of its rotations, under the handle it
   was issued with, and `rootOf` finds the lineage of a handle. `wins` lists the handles that a rotation or
   a retirement has won.
   */
  datatype World = World(
    table: Table, intents: map<nat, Intent>, lineages: map<string, seq<string>>, rootOf: map<string, string>,
    wins: seq<string>)

  datatype Event =
    | IssueSession(digest: string, generation: string, principal: Principal, now: int, lifetime: int,
                   strength: Option<StrengthEvidence>)
    | StartRotation(client: nat, request: RotateRequest)
    | StartRetirement(client: nat, digest: string, now: int)
    | Commit(client: nat)

  const EMPTY := World(map[], map[], map[], map[], [])

  /** Handles are fresh: a rotation never writes its successor over a stored record. */
  predicate Allowed(w: World, e: Event) {
    e.Commit? && e.client in w.intents && w.intents[e.client].Rotating? ==>
      w.intents[e.client].successor.digest !in w.table
  }

  function AfterIssue(w: World, record: SessionRecord): World {
    if record.digest in w.table then w
    else
      w.(table := w.table[record.digest := record],
         lineages := w.lineages[record.digest := [record.digest]],
         rootOf := w.rootOf[record.digest := record.digest])
  }

  function AfterRotation(w: World, i: Intent): World
    requires i.Rotating?
  {
    var (t, won) := Rotate(w.table, i.predecessor, i.expectedGeneration, i.successor);
    if !won || i.predecessor !in w.rootOf || w.rootOf[i.predecessor] !in w.lineages then w.(table := t)
    else
      var root := w.rootOf[i.predecessor];
      w.(table := t,
         lineages := w.lineages[root := w.lineages[root] + [i.successor.digest]],
         rootOf := w.rootOf[i.successor.digest := root],
         wins := w.wins + [i.predecessor])
  }

  function AfterRetirement(w: World, i: Intent): World
    requires i.Retiring?
  {
    var (t, won) := Retire(w.table, i.predecessor, i.expectedGeneration);
    w.(table := t, wins := if won then w.wins + [i.predecessor] else w.wins)
  }

  function After(w: World, e: Event): World {
    match e
    case IssueSession(digest, generation, principal, now, lifetime, strength) =>
      var record := NewRecord(digest, generation, principal, now, lifetime, strength);
      if record.Err? then w else AfterIssue(w, record.value)
    case StartRotation(client, q) =>
      var i := PrepareRotation(w.table, q);
      if i.Err? then w else w.(intents := w.intents[client := i.value])
    case StartRetirement(client, digest, now) =>
      var i := PrepareRetirement(w.table, digest, now);
      if i.Err? then w else w.(intents := w.intents[client := i.value])
    case Commit(client) =>
      if client !in w.intents then w
      else
        var i, w' := w.intents[client], w.(intents := w.intents - {client});
        if i.Rotating? then AfterRotation(w', i) else AfterRetirement(w', i)
  }

  predicate AllowedRun(w: World, events: seq<Event>)
    decreases |events|
  {
    events != [] ==> Allowed(w, events[0]) && AllowedRun(After(w, events[0]), events[1..])
  }

  function Run(w: World, events: seq<Event>): World
    decreases |events|
  {
    if events == [] then w else Run(After(w, events[0]), events[1..])
  }

  // ----- The invariant -----

  ghost predicate SamePrincipal(a: SessionRecord, b: SessionRecord) {
    a.principal.principalId == b.principal.principalId && a.principal.kind == b.principal.kind
  }

  /** One lineage: all its records have the principal of the first, and all but the last are retired. */
  ghost predicate LineageSound(t: Table, rootOf: map<string, string>, root: string, chain: seq<string>) {
    && chain != [] && chain[0] == root
    && (forall k | 0 <= k < |chain| ::
          && chain[k] in t && chain[k] in rootOf && rootOf[chain[k]] == root
          && root in t && SamePrincipal(t[chain[k]], t[root])
          && (k + 1 < |chain| ==> t[chain[k]].retired))
    && (forall j, k | 0 <= j < k < |chain| :: chain[j] != chain[k])
  }

  /** A stored record is well formed under its own digest and stands somewhere in its lineage. */
  ghost predicate PlacedSound(w: World, digest: string) {
    && digest in w.table
    && RecordWellFormed(w.table[digest]) && w.table[digest].digest == digest
    && digest in w.rootOf && w.rootOf[digest] in w.lineages
    && digest in w.lineages[w.rootOf[digest]]
  }

  ghost predicate IntentSound(t: Table, i: Intent) {
    && i.predecessor in t
    && (i.Rotating? ==>
          && RecordWellFormed(i.successor) && !i.successor.retired
          && SamePrincipal(i.successor, t[i.predecessor]))
  }

  ghost predicate WinsSound(t: Table, wins: seq<string>) {
    && (forall j, k | 0 <= j < k < |wins| :: wins[j] != wins[k])
    && (forall digest :: digest in wins <==> digest in t && t[digest].retired)
  }

  ghost predicate Inv(w: World) {
    && (forall digest | digest in w.table :: PlacedSound(w, digest))
    && (forall root | root in w.lineages :: LineageSound(w.table, w.rootOf, root, w.lineages[root]))
    && (forall client | client in w.intents :: IntentSound(w.table, w.intents[client]))
    && WinsSound(w.table, w.wins)
  }

  /** `t'` keeps every record of `t` up to its retirement. */
  ghost predicate OnlyRetires(t: Table, t': Table) {
    forall d | d in t :: d in t' && (t'[d] == t[d] || t'[d] == t[d].(retired := true))
  }

  lemma OnlyRetiresKeepsIntents(t: Table, t': Table, intents: map<nat, Intent>)
    requires OnlyRetires(t, t') && forall c | c in intents :: IntentSound(t, intents[c])
    ensures forall c | c in intents :: IntentSound(t', intents[c])
  {
    forall c | c in intents ensures IntentSound(t', intents[c]) {
      assert IntentSound(t, intents[c]);
    }
  }

  lemma OnlyRetiresKeepsLineage(
    t: Table, t': Table, rootOf: map<string, string>, rootOf': map<string, string>, root: string, chain: seq<string>)
    requires OnlyRetires(t, t') && LineageSound(t, rootOf, root, chain)
    requires forall d | d in rootOf && d in t :: d in rootOf' && rootOf'[d] == rootOf[d]
    ensures LineageSound(t', rootOf', root, chain)
  {
  }

  lemma IssueKeepsPlace(w: World, record: SessionRecord, digest: string)
    requires PlacedSound(w, digest) && LineageSound(w.table, w.rootOf, w.rootOf[digest], w.lineages[w.rootOf[digest]])
    requires record.digest !in w.table
    ensures PlacedSound(AfterIssue(w, record), digest)
  {
    assert w.lineages[w.rootOf[digest]][0] == w.rootOf[digest];
  }

  lemma IssueKeepsPlaces(w: World, record: SessionRecord)
    requires Inv(w) && RecordWellFormed(record) && record.digest !in w.table
    ensures var w' := AfterIssue(w, record); forall d | d in w'.table :: PlacedSound(w', d)
  {
    var w' := AfterIssue(w, record);
    forall digest | digest in w'.table ensures PlacedSound(w', digest) {
      if digest != record.digest {
        assert PlacedSound(w, digest);
        IssueKeepsPlace(w, record, digest);
      }
    }
  }

  lemma IssueKeepsLineages(w: World, record: SessionRecord)
    requires Inv(w) && record.digest !in w.table
    ensures var w' := AfterIssue(w, record);
            forall root | root in w'.lineages :: LineageSound(w'.table, w'.rootOf, root, w'.lineages[root])
  {
    var w' := AfterIssue(w, record);
    forall root | root in w'.lineages ensures LineageSound(w'.table, w'.rootOf, root, w'.lineages[root]) {
      if root != record.digest {
        OnlyRetiresKeepsLineage(w.table, w'.table, w.rootOf, w'.rootOf, root, w.lineages[root]);
      }
    }
  }

  lemma IssueKeepsInv(w: World, record: SessionRecord)
    requires Inv(w) && RecordWellFormed(record) && !record.retired && record.digest !in w.table
    ensures Inv(AfterIssue(w, record))
  {
    IssueKeepsPlaces(w, record);
    IssueKeepsLineages(w, record);
    OnlyRetiresKeepsIntents(w.table, AfterIssue(w, record).table, w.intents);
  }

  lemma WinKeepsWins(t: Table, t': Table, wins: seq<string>, digest: string)
    requires WinsSound(t, wins) && digest in t && !t[digest].retired
    requires forall d | d in t' && d != digest :: if d in t then t'[d] == t[d] else !t'[d].retired
    requires digest in t' && t'[digest].retired && forall d | d in t :: d in t'
    ensures WinsSound(t', wins + [digest])
  {
    assert digest !in wins;
    var wins' := wins + [digest];
    forall d ensures d in wins' <==> d in t' && t'[d].retired {
      assert d in wins' <==> d in wins || d == digest;
    }
  }

  lemma RetirementKeepsInv(w: World, i: Intent)
    requires Inv(w) && i.Retiring?
    ensures Inv(AfterRetirement(w, i))
  {
    var w' := AfterRetirement(w, i);
    if Retire(w.table, i.predecessor, i.expectedGeneration).1 {
      forall digest | digest in w'.table ensures PlacedSound(w', digest) {
        assert PlacedSound(w, digest);
      }
      forall root | root in w'.lineages ensures LineageSound(w'.table, w'.rootOf, root, w'.lineages[root]) {
        OnlyRetiresKeepsLineage(w.table, w'.table, w.rootOf, w'.rootOf, root, w.lineages[root]);
      }
      OnlyRetiresKeepsIntents(w.table, w'.table, w.intents);
      WinKeepsWins(w.table, w'.table, w.wins, i.predecessor);
    }
  }

  /** The record that a rotation replaces is the last of its lineage, because it is not retired. */
  lemma UnretiredIsLast(w: World, digest: string)
    requires Inv(w) && digest in w.table && !w.table[digest].retired
    ensures var chain := w.lineages[w.rootOf[digest]]; chain != [] && chain[|chain| - 1] == digest
  {
    assert PlacedSound(w, digest);
    var chain := w.lineages[w.rootOf[digest]];
    assert LineageSound(w.table, w.rootOf, w.rootOf[digest], chain);
    var k :| 0 <= k < |chain| && chain[k] == digest;
  }

  lemma LineageGrows(
    t: Table, t': Table, rootOf: map<string, string>, root: string, chain: seq<string>, successor: SessionRecord)
    requires LineageSound(t, rootOf, root, chain) && OnlyRetires(t, t')
    requires successor.digest !in t && successor.digest in t' && t'[successor.digest] == successor
    requires t'[chain[|chain| - 1]].retired && SamePrincipal(successor, t[chain[|chain| - 1]])
    ensures LineageSound(t', rootOf[successor.digest := root], root, chain + [successor.digest])
  {
  }

  lemma RotationKeepsPlace(w: World, i: Intent, digest: string)
    requires i.Rotating? && PlacedSound(w, digest) && digest != i.successor.digest
    ensures PlacedSound(AfterRotation(w, i), digest)
  {
  }

  lemma RotationKeepsLineage(w: World, i: Intent, root: string)
    requires Inv(w) && i.Rotating? && IntentSound(w.table, i) && i.successor.digest !in w.table
    requires Rotate(w.table, i.predecessor, i.expectedGeneration, i.successor).1
    requires PlacedSound(w, i.predecessor) && root in w.lineages && root != w.rootOf[i.predecessor]
    ensures var w' := AfterRotation(w, i); LineageSound(w'.table, w'.rootOf, root, w.lineages[root])
  {
    var w' := AfterRotation(w, i);
    assert LineageSound(w.table, w.rootOf, root, w.lineages[root]);
    OnlyRetiresKeepsLineage(w.table, w'.table, w.rootOf, w'.rootOf, root, w.lineages[root]);
  }

  lemma RotationExtendsLineage(w: World, i: Intent, root: string)
    requires Inv(w) && i.Rotating? && IntentSound(w.table, i) && i.successor.digest !in w.table
    requires Rotate(w.table, i.predecessor, i.expectedGeneration, i.successor).1
    requires PlacedSound(w, i.predecessor) && root == w.rootOf[i.predecessor]
    ensures var w' := AfterRotation(w, i);
            LineageSound(w'.table, w'.rootOf, root, w.lineages[root] + [i.successor.digest])
  {
    UnretiredIsLast(w, i.predecessor);
    assert LineageSound(w.table, w.rootOf, root, w.lineages[root]);
    LineageGrows(w.table, AfterRotation(w, i).table, w.rootOf, root, w.lineages[root], i.successor);
  }

  lemma RotationKeepsLineages(w: World, i: Intent)
    requires Inv(w) && i.Rotating? && IntentSound(w.table, i) && i.successor.digest !in w.table
    requires Rotate(w.table, i.predecessor, i.expectedGeneration, i.successor).1
    ensures var w' := AfterRotation(w, i);
            forall r | r in w'.lineages :: LineageSound(w'.table, w'.rootOf, r, w'.lineages[r])
  {
    var w' := AfterRotation(w, i);
    assert PlacedSound(w, i.predecessor);
    forall r | r in w'.lineages ensures LineageSound(w'.table, w'.rootOf, r, w'.lineages[r]) {
      if r == w.rootOf[i.predecessor] {
        RotationExtendsLineage(w, i, r);
      } else {
        RotationKeepsLineage(w, i, r);
      }
    }
  }

  lemma RotationKeepsPlaces(w: World, i: Intent)
    requires Inv(w) && i.Rotating? && IntentSound(w.table, i)
    requires Rotate(w.table, i.predecessor, i.expectedGeneration, i.successor).1
    ensures var w' := AfterRotation(w, i); forall d | d in w'.table :: PlacedSound(w', d)
  {
    var w' := AfterRotation(w, i);
    assert PlacedSound(w, i.predecessor);
    forall digest | digest in w'.table ensures PlacedSound(w', digest) {
      if digest != i.successor.digest {
        assert PlacedSound(w, digest);
        RotationKeepsPlace(w, i, digest);
      }
    }
  }

  lemma RotationOnTable(t: Table, wins: seq<string>, i: Intent)
    requires i.Rotating? && i.successor.digest !in t && !i.successor.retired && WinsSound(t, wins)
    requires Rotate(t, i.predecessor, i.expectedGeneration, i.successor).1
    ensures var t' := Rotate(t, i.predecessor, i.expectedGeneration, i.successor).0;
            OnlyRetires(t, t') && WinsSound(t', wins + [i.predecessor])
  {
    WinKeepsWins(t, Rotate(t, i.predecessor, i.expectedGeneration, i.successor).0, wins, i.predecessor);
  }

  lemma RotationKeepsInv(w: World, i: Intent)
    requires Inv(w) && i.Rotating? && IntentSound(w.table, i) && i.successor.digest !in w.table
    ensures Inv(AfterRotation(w, i))
  {
    if Rotate(w.table, i.predecessor, i.expectedGeneration, i.successor).1 {
      RotationKeepsLineages(w, i);
      RotationKeepsPlaces(w, i);
      RotationOnTable(w.table, w.wins, i);
      OnlyRetiresKeepsIntents(w.table, AfterRotation(w, i).table, w.intents);
      assert PlacedSound(w, i.predecessor);
    }
  }

  lemma IssueEventKeepsInv(w: World, e: Event)
    requires Inv(w) && e.IssueSession?
    ensures Inv(After(w, e))
  {
    var record := NewRecord(e.digest, e.generation, e.principal, e.now, e.lifetime, e.strength);
    if record.Ok? && e.digest !in w.table {
      IssueKeepsInv(w, record.value);
    }
  }

  lemma StartRotationKeepsInv(w: World, client: nat, q: RotateRequest)
    requires Inv(w)
    ensures Inv(After(w, StartRotation(client, q)))
  {
    IntentStarts(w, client, PrepareRotation(w.table, q));
  }

  lemma StartRetirementKeepsInv(w: World, client: nat, digest: string, now: int)
    requires Inv(w)
    ensures Inv(After(w, StartRetirement(client, digest, now)))
  {
    IntentStarts(w, client, PrepareRetirement(w.table, digest, now));
  }

  lemma CommitKeepsInv(w: World, client: nat)
    requires Inv(w) && Allowed(w, Commit(client))
    ensures Inv(After(w, Commit(client)))
  {
    if client in w.intents {
      var i, w0 := w.intents[client], w.(intents := w.intents - {client});
      IntentEnds(w, client);
      if i.Rotating? {
        RotationKeepsInv(w0, i);
      } else {
        RetirementKeepsInv(w0, i);
      }
    }
  }

  lemma StepKeepsInv(w: World, e: Event)
    requires Inv(w) && Allowed(w, e)
    ensures Inv(After(w, e))
  {
    match e
    case IssueSession(_, _, _, _, _, _) => IssueEventKeepsInv(w, e);
    case StartRotation(client, q) => StartRotationKeepsInv(w, client, q);
    case StartRetirement(client, digest, now) => StartRetirementKeepsInv(w, client, digest, now);
    case Commit(client) => CommitKeepsInv(w, client);
  }

  lemma IntentStarts(w: World, client: nat, i: Result<Intent>)
    requires Inv(w) && (i.Ok? ==> IntentSound(w.table, i.value))
    ensures i.Ok? ==> Inv(w.(intents := w.intents[client := i.value]))
  {
    if i.Ok? {
      var w' := w.(intents := w.intents[client := i.value]);
      forall digest | digest in w'.table ensures PlacedSound(w', digest) {
        assert PlacedSound(w, digest);
      }
    }
  }

  lemma IntentEnds(w: World, client: nat)
    requires Inv(w)
    ensures Inv(w.(intents := w.intents - {client}))
  {
    var w' := w.(intents := w.intents - {client});
    forall digest | digest in w'.table ensures PlacedSound(w', digest) {
      assert PlacedSound(w, digest);
    }
  }

  lemma {:induction false} RunKeepsInv(w: World, events: seq<Event>)
    requires Inv(w) && AllowedRun(w, events)
    ensures Inv(Run(w, events))
    decreases |events|
  {
    if events != [] {
      StepKeepsInv(w, events[0]);
      RunKeepsInv(After(w, events[0]), events[1..]);
    }
  }

  // ----- Main results -----

  /**
   In every interleaving, each lineage is a chain of distinct handles that all name the principal and kind of
   the first, and no record of it is unretired but, possibly, the last.
   */
  lemma LineagesAreChains(events: seq<Event>, digest: string)
    requires AllowedRun(EMPTY, events) && digest in Run(EMPTY, events).table
    ensures var w := Run(EMPTY, events);
            && digest in w.rootOf && w.rootOf[digest] in w.lineages
            && var root, chain := w.rootOf[digest], w.lineages[w.rootOf[digest]];
               && digest in chain
               && LineageSound(w.table, w.rootOf, root, chain)
               && forall other | other in w.table && other in w.rootOf && w.rootOf[other] == root
                                 && !w.table[other].retired && !w.table[digest].retired :: other == digest
  {
    var w := Run(EMPTY, events);
    RunKeepsInv(EMPTY, events);
    assert PlacedSound(w, digest);
    var root := w.rootOf[digest];
    forall other | other in w.table && other in w.rootOf && w.rootOf[other] == root
                   && !w.table[other].retired && !w.table[digest].retired
      ensures other == digest
    {
      UnretiredIsLast(w, other);
      UnretiredIsLast(w, digest);
    }
  }

  /** At most one rotation or retirement ever wins a record, and exactly the won records are retired. */
  lemma OneWinPerRecord(events: seq<Event>, digest: string)
    requires AllowedRun(EMPTY, events)
    ensures var w := Run(EMPTY, events);
            && (digest in w.wins <==> digest in w.table && w.table[digest].retired)
            && multiset(w.wins)[digest] <= 1
  {
    var w := Run(EMPTY, events);
    RunKeepsInv(EMPTY, events);
    DistinctMeansOnce(w.wins, digest);
  }

  lemma {:induction false} DistinctMeansOnce(s: seq<string>, x: string)
    requires forall j, k | 0 <= j < k < |s| :: s[j] != s[k]
    ensures multiset(s)[x] <= 1
  {
    if s != [] {
      var front, last := s[..|s| - 1], s[|s| - 1];
      DistinctMeansOnce(front, x);
      assert s == front + [last];
      assert last !in multiset(front);
    }
  }

  /** Every stored record's credential generation and strength evidence are those of its own session generation. */
  lemma RecordsBindTheirGeneration(events: seq<Event>, digest: string)
    requires AllowedRun(EMPTY, events) && digest in Run(EMPTY, events).table
    ensures var r := Run(EMPTY, events).table[digest];
            && r.digest == digest && Human(r.principal.kind)
            && r.principal.credentialGeneration == r.generation
            && (r.strength.Some? ==>
                  && r.strength.value.principalId == Some(r.principal.principalId)
                  && r.strength.value.credentialGeneration == Some(r.generation))
  {
    RunKeepsInv(EMPTY, events);
    assert PlacedSound(Run(EMPTY, events), digest);
  }
}
