/**
 Fence epochs. Acquiring a successor is a read followed, some time later, by a compare-and-swap, and any
 number of acquisitions interleave. The in-memory authority compares epoch and generation but not the
 state of the predecessor; that the predecessor was active at the swap follows from the read.
 */
module Fences {
  import opened Foundation

  const MAX_SIGNED_BIGINT: int := 9_223_372_036_854_775_807

  const ACTIVE := "active"

  datatype FenceRecord = FenceRecord(scope: string, epoch: int, generation: string, state: string)

  datatype FenceToken = FenceToken(scope: string, epoch: int, generation: string)

  predicate RecordWellFormed(r: FenceRecord) {
    && ValidIdentifier(r.scope) && ValidIdentifier(r.generation) && ValidIdentifier(r.state)
    && 0 < r.epoch <= MAX_SIGNED_BIGINT
  }

  type Table = map<string, FenceRecord>

  // ----- The authority -----

  function Successor(
    t: Table, scope: string, epoch: int, generation: string, nextGeneration: string, nextState: string)
    : Outcome<Table, Option<FenceRecord>>
  {
    if scope !in t then Outcome(t, Ok(None))
    else if t[scope].epoch != epoch || t[scope].generation != generation then Outcome(t, Ok(None))
    else
      var successor := FenceRecord(scope, t[scope].epoch + 1, nextGeneration, nextState);
      if !RecordWellFormed(successor) then Outcome(t, Err(ValueError))
      else Outcome(t[scope := successor], Ok(Some(successor)))
  }

  function Bootstrap(t: Table, scope: string, generation: string): Outcome<Table, FenceRecord> {
    var record := FenceRecord(scope, 1, generation, ACTIVE);
    if !RecordWellFormed(record) then Outcome(t, Err(ValueError)) else Outcome(t[scope := record], Ok(record))
  }

  predicate Admits(t: Table, token: FenceToken) {
    && token.scope in t
    && t[token.scope].state == ACTIVE
    && t[token.scope] == FenceRecord(token.scope, token.epoch, token.generation, ACTIVE)
  }

  // ----- Acquisition in two steps -----

  datatype Request = Request(
    scope: string, expectedEpoch: int, nextGeneration: string, nextState: string, expectedGeneration: Option<string>)

  /** An acquisition that has read its predecessor and not yet swapped. */
  datatype Intent = Intent(request: Request, observed: FenceRecord)

  function Read(t: Table, q: Request): Result<Intent> {
    if !ValidIdentifier(q.scope) || !ValidIdentifier(q.nextGeneration) || !ValidIdentifier(q.nextState) then
      Err(AdmissionDenied)
    else if q.expectedEpoch <= 0 || q.expectedEpoch >= MAX_SIGNED_BIGINT then Err(AdmissionDenied)
    else if q.scope !in t then Err(AdmissionDenied)
    else
      var observed := t[q.scope];
      if observed.scope != q.scope || observed.state != ACTIVE then Err(AdmissionDenied)
      else if observed.epoch != q.expectedEpoch then Err(AdmissionDenied)
      else if q.expectedGeneration.Some? && !ValidIdentifier(q.expectedGeneration.value) then Err(AdmissionDenied)
      else if q.expectedGeneration.Some? && observed.generation != q.expectedGeneration.value then Err(AdmissionDenied)
      else Ok(Intent(q, observed))
  }

  function Swap(t: Table, i: Intent): Outcome<Table, FenceRecord> {
    var q := i.request;
    var o := Successor(t, q.scope, q.expectedEpoch, i.observed.generation, q.nextGeneration, q.nextState);
    if o.answer.Err? then Outcome(o.state, Err(o.answer.error))
    else if o.answer.value.None? then Outcome(o.state, Err(AdmissionDenied))
    else
      var winner := o.answer.value.value;
      if winner != FenceRecord(q.scope, q.expectedEpoch + 1, q.nextGeneration, q.nextState) then
        Outcome(o.state, Err(AdmissionDenied))
      else Outcome(o.state, Ok(winner))
  }

  /** The authority as the program keeps it, and an acquisition that nothing interleaves with. */
  class InMemoryFenceAuthority {
    var fences: map<string, FenceRecord>

    constructor ()
      ensures fences == map[]
    {
      fences := map[];
    }

    method Current(scope: string) returns (r: Option<FenceRecord>)
      ensures r == if scope in fences then Some(fences[scope]) else None
    {
      if scope in fences {
        return Some(fences[scope]);
      }
      return None;
    }

    method AcquireSuccessor(scope: string, epoch: int, generation: string, nextGeneration: string, nextState: string)
      returns (r: Result<Option<FenceRecord>>)
      modifies this
      ensures Outcome(fences, r) == Successor(old(fences), scope, epoch, generation, nextGeneration, nextState)
    {
      var current := Current(scope);
      if current.None? {
        return Ok(None);
      }
      if current.value.epoch != epoch || current.value.generation != generation {
        return Ok(None);
      }
      var successor := FenceRecord(scope, current.value.epoch + 1, nextGeneration, nextState);
      if !RecordWellFormed(successor) {
        return Err(ValueError);
      }
      fences := fences[scope := successor];
      return Ok(Some(successor));
    }

    method BootstrapScope(scope: string, generation: string) returns (r: Result<FenceRecord>)
      modifies this
      ensures Outcome(fences, r) == Bootstrap(old(fences), scope, generation)
    {
      var record := FenceRecord(scope, 1, generation, ACTIVE);
      if !RecordWellFormed(record) {
        return Err(ValueError);
      }
      fences := fences[scope := record];
      return Ok(record);
    }

    method AdmitFencedEffect(token: FenceToken) returns (r: Result<()>)
      ensures r == if Admits(fences, token) then Ok(()) else Err(AdmissionDenied)
    {
      var current := Current(token.scope);
      if current.None? || current.value.state != ACTIVE {
        return Err(AdmissionDenied);
      }
      if token.scope != current.value.scope || token.epoch != current.value.epoch {
        return Err(AdmissionDenied);
      }
      if token.generation != current.value.generation {
        return Err(AdmissionDenied);
      }
      return Ok(());
    }

    method AcquireNextFence(q: Request) returns (r: Result<FenceRecord>)
      modifies this
      ensures var i := Read(old(fences), q);
              if i.Err? then r == Err(i.error) && fences == old(fences)
              else Outcome(fences, r) == Swap(old(fences), i.value)
    {
      if !ValidIdentifier(q.scope) || !ValidIdentifier(q.nextGeneration) || !ValidIdentifier(q.nextState) {
        return Err(AdmissionDenied);
      }
      if q.expectedEpoch <= 0 || q.expectedEpoch >= MAX_SIGNED_BIGINT {
        return Err(AdmissionDenied);
      }
      var observed := Current(q.scope);
      if observed.None? || observed.value.scope != q.scope || observed.value.state != ACTIVE {
        return Err(AdmissionDenied);
      }
      if observed.value.epoch != q.expectedEpoch {
        return Err(AdmissionDenied);
      }
      var predecessor := if q.expectedGeneration.Some? then q.expectedGeneration.value else observed.value.generation;
      if q.expectedGeneration.Some? && !ValidIdentifier(predecessor) {
        return Err(AdmissionDenied);
      }
      if observed.value.generation != predecessor {
        return Err(AdmissionDenied);
      }
      var winner := AcquireSuccessor(q.scope, q.expectedEpoch, predecessor, q.nextGeneration, q.nextState);
      if winner.Err? {
        return Err(winner.error);
      }
      if winner.value.None? {
        return Err(AdmissionDenied);
      }
      if winner.value.value != FenceRecord(q.scope, q.expectedEpoch + 1, q.nextGeneration, q.nextState) {
        return Err(AdmissionDenied);
      }
      return Ok(winner.value.value);
    }
  }

  // ----- Interleaved runs -----

  datatype Win = Win(predecessor: FenceRecord, successor: FenceRecord)

  /** `wins` records every successful swap with the record it replaced, oldest first. */
  datatype World = World(table: Table, intents: map<nat, Intent>, wins: seq<Win>)

  datatype Event =
    | Start(client: nat, request: Request)
    | Commit(client: nat)
    | Create(scope: string, generation: string)

  const EMPTY := World(map[], map[], [])

  /** The only thing asked of the environment: a scope that exists is not bootstrapped again. */
  predicate Allowed(w: World, e: Event) {
    e.Create? ==> e.scope !in w.table
  }

  function After(w: World, e: Event): World {
    match e
    case Start(client, q) =>
      var i := Read(w.table, q);
      if i.Ok? then w.(intents := w.intents[client := i.value]) else w
    case Commit(client) =>
      if client !in w.intents then w
      else
        var i := w.intents[client];
        var o := Swap(w.table, i);
        w.(table := o.state, intents := w.intents - {client},
           wins := if o.answer.Ok? then w.wins + [Win(w.table[i.request.scope], o.answer.value)] else w.wins)
    case Create(scope, generation) => w.(table := Bootstrap(w.table, scope, generation).state)
  }

  predicate AllowedRun(w: World, events: seq<Event>)
    decreases |events|
  {
    events != [] ==> Allowed(w, events[0]) && AllowedRun(After(w, events[0]), events[1..])
  }

  function Run(w: World, events: seq<Event>): World
    decreases |events|
  {
    if events == [] then w else Run(After(w, events[0]), events[1..])
  }

  /** The wins of one scope, in order. */
  function WinsOf(wins: seq<Win>, scope: string): seq<Win> {
    if wins == [] then []
    else
      WinsOf(wins[..|wins| - 1], scope)
      + if wins[|wins| - 1].predecessor.scope == scope then [wins[|wins| - 1]] else []
  }

  lemma WinsOfAppend(wins: seq<Win>, win: Win, scope: string)
    ensures WinsOf(wins + [win], scope) == WinsOf(wins, scope) + if win.predecessor.scope == scope then [win] else []
  {
    assert (wins + [win])[..|wins|] == wins;
  }

  /**
   The wins of a scope form an unbroken chain from epoch 1 to the current record: the k-th replaces the
   record of epoch k, which was active, by the record of epoch k + 1.
   */
  ghost predicate ChainUpTo(chain: seq<Win>, scope: string, last: FenceRecord) {
    && last.scope == scope
    && last.epoch == |chain| + 1
    && (forall k | 0 <= k < |chain| ::
          && chain[k].predecessor.scope == scope && chain[k].successor.scope == scope
          && chain[k].predecessor.epoch == k + 1
          && chain[k].predecessor.state == ACTIVE
          && chain[k].successor.epoch == k + 2)
    && (forall j, k | 0 <= j && k == j + 1 && k < |chain| :: chain[j].successor == chain[k].predecessor)
    && (if chain == [] then last.state == ACTIVE else chain[|chain| - 1].successor == last)
  }

  /** What an intent knows stays true: its predecessor was active, and is still current or has been passed. */
  ghost predicate IntentSound(t: Table, i: Intent) {
    && i.observed.scope == i.request.scope
    && i.observed.epoch == i.request.expectedEpoch
    && i.observed.state == ACTIVE
    && i.request.scope in t
    && (t[i.request.scope] == i.observed || i.observed.epoch < t[i.request.scope].epoch)
  }

  /** Either a scope was never created and nothing was won in it, or its wins lead up to its record. */
  ghost predicate ScopeSound(t: Table, wins: seq<Win>, scope: string) {
    if scope in t then 1 <= t[scope].epoch <= MAX_SIGNED_BIGINT && ChainUpTo(WinsOf(wins, scope), scope, t[scope])
    else WinsOf(wins, scope) == []
  }

  ghost predicate Inv(w: World) {
    && (forall scope :: ScopeSound(w.table, w.wins, scope))
    && (forall client | client in w.intents :: IntentSound(w.table, w.intents[client]))
  }

  lemma ChainExtends(chain: seq<Win>, scope: string, last: FenceRecord, next: FenceRecord)
    requires ChainUpTo(chain, scope, last) && last.state == ACTIVE
    requires next.scope == scope && next.epoch == last.epoch + 1
    ensures ChainUpTo(chain + [Win(last, next)], scope, next)
  {
  }

  /** A swap either replaces the very record that was read by its successor, or changes nothing. */
  lemma SwapFacts(t: Table, i: Intent)
    requires IntentSound(t, i)
    ensures var scope, o := i.request.scope, Swap(t, i);
            if o.answer.Err? then o.state == t
            else
              && t[scope] == i.observed
              && o.state == t[scope := o.answer.value]
              && o.answer.value.scope == scope && o.answer.value.epoch == t[scope].epoch + 1 <= MAX_SIGNED_BIGINT
  {
  }

  lemma SwapKeepsScopes(t: Table, wins: seq<Win>, scope: string, next: FenceRecord, s: string)
    requires scope in t && t[scope].scope == scope && t[scope].state == ACTIVE
    requires next.scope == scope && next.epoch == t[scope].epoch + 1 <= MAX_SIGNED_BIGINT
    requires ScopeSound(t, wins, s)
    ensures ScopeSound(t[scope := next], wins + [Win(t[scope], next)], s)
  {
    WinsOfAppend(wins, Win(t[scope], next), s);
    if s == scope {
      ChainExtends(WinsOf(wins, s), scope, t[scope], next);
    } else {
      assert WinsOf(wins, s) + [] == WinsOf(wins, s);
    }
  }

  lemma PassingKeepsIntent(t: Table, scope: string, next: FenceRecord, i: Intent)
    requires IntentSound(t, i)
    requires scope in t ==> t[scope].epoch < next.epoch
    ensures IntentSound(t[scope := next], i)
  {
  }

  lemma CommitKeepsInv(w: World, client: nat)
    requires Inv(w) && client in w.intents
    ensures Inv(After(w, Commit(client)))
  {
    var w', i := After(w, Commit(client)), w.intents[client];
    var scope, o := i.request.scope, Swap(w.table, i);
    SwapFacts(w.table, i);
    if o.answer.Ok? {
      forall s ensures ScopeSound(w'.table, w'.wins, s) {
        SwapKeepsScopes(w.table, w.wins, scope, o.answer.value, s);
      }
      forall c | c in w'.intents ensures IntentSound(w'.table, w'.intents[c]) {
        PassingKeepsIntent(w.table, scope, o.answer.value, w.intents[c]);
      }
    }
  }

  lemma CreateKeepsInv(w: World, scope: string, generation: string)
    requires Inv(w) && scope !in w.table
    ensures Inv(After(w, Create(scope, generation)))
  {
    var w' := After(w, Create(scope, generation));
    forall s ensures ScopeSound(w'.table, w'.wins, s) {
      assert ScopeSound(w.table, w.wins, s);
    }
  }

  lemma StartKeepsInv(w: World, client: nat, q: Request)
    requires Inv(w)
    ensures Inv(After(w, Start(client, q)))
  {
    var w' := After(w, Start(client, q));
    forall s ensures ScopeSound(w'.table, w'.wins, s) {
      assert ScopeSound(w.table, w.wins, s);
    }
  }

  lemma StepKeepsInv(w: World, e: Event)
    requires Inv(w) && Allowed(w, e)
    ensures Inv(After(w, e))
  {
    match e
    case Start(client, q) => StartKeepsInv(w, client, q);
    case Commit(client) =>
      if client in w.intents {
        CommitKeepsInv(w, client);
      }
    case Create(scope, generation) => CreateKeepsInv(w, scope, generation);
  }

  lemma {:induction false} RunKeepsInv(w: World, events: seq<Event>)
    requires Inv(w) && AllowedRun(w, events)
    ensures Inv(Run(w, events))
    decreases |events|
  {
    if events != [] {
      StepKeepsInv(w, events[0]);
      RunKeepsInv(After(w, events[0]), events[1..]);
    }
  }

  // ----- Main results -----

  /**
   In every interleaving, epochs grow by exactly one per win and stay within the signed 64-bit range, every
   predecessor was active when it was replaced, and each predecessor epoch of a scope has at most one winner.
   */
  lemma EpochsFormOneChain(events: seq<Event>, scope: string)
    requires AllowedRun(EMPTY, events) && scope in Run(EMPTY, events).table
    ensures var w := Run(EMPTY, events);
            && ChainUpTo(WinsOf(w.wins, scope), scope, w.table[scope])
            && 1 <= w.table[scope].epoch <= MAX_SIGNED_BIGINT
            && forall j, k | 0 <= j < |WinsOf(w.wins, scope)| && 0 <= k < |WinsOf(w.wins, scope)| ::
                 WinsOf(w.wins, scope)[j].predecessor.epoch == WinsOf(w.wins, scope)[k].predecessor.epoch ==> j == k
  {
    RunKeepsInv(EMPTY, events);
    assert ScopeSound(Run(EMPTY, events).table, Run(EMPTY, events).wins, scope);
  }

  /** A scope's record is replaced only by a successor of the next epoch, and never once it is not active. */
  lemma StepOnScope(w: World, e: Event, scope: string)
    requires Inv(w) && Allowed(w, e) && scope in w.table
    ensures scope in After(w, e).table
    ensures var r, r' := w.table[scope], After(w, e).table[scope];
            r' == r || (r.state == ACTIVE && r'.epoch == r.epoch + 1)
  {
    if e.Commit? && e.client in w.intents {
      SwapFacts(w.table, w.intents[e.client]);
    }
  }

  lemma {:induction false} RunOnScope(w: World, events: seq<Event>, scope: string)
    requires Inv(w) && AllowedRun(w, events) && scope in w.table
    ensures scope in Run(w, events).table
    ensures var r, r' := w.table[scope], Run(w, events).table[scope];
            r' == r || (r.state == ACTIVE && r'.epoch > r.epoch)
    decreases |events|
  {
    if events != [] {
      StepKeepsInv(w, events[0]);
      StepOnScope(w, events[0], scope);
      RunOnScope(After(w, events[0]), events[1..], scope);
    }
  }

  /** A record that is not active is final: it seals its scope against every pending and every later acquisition. */
  lemma NonActiveSealsScope(before: seq<Event>, later: seq<Event>, scope: string)
    requires AllowedRun(EMPTY, before) && AllowedRun(Run(EMPTY, before), later)
    requires scope in Run(EMPTY, before).table && Run(EMPTY, before).table[scope].state != ACTIVE
    ensures var w := Run(EMPTY, before);
            scope in Run(w, later).table && Run(w, later).table[scope] == w.table[scope]
    ensures forall token: FenceToken | token.scope == scope :: !Admits(Run(Run(EMPTY, before), later).table, token)
  {
    RunKeepsInv(EMPTY, before);
    RunOnScope(Run(EMPTY, before), later, scope);
  }

  /** A token whose epoch has been passed is never admitted again. */
  lemma SupersededNeverAdmitted(before: seq<Event>, later: seq<Event>, token: FenceToken)
    requires AllowedRun(EMPTY, before) && AllowedRun(Run(EMPTY, before), later)
    requires token.scope in Run(EMPTY, before).table && token.epoch < Run(EMPTY, before).table[token.scope].epoch
    ensures !Admits(Run(Run(EMPTY, before), later).table, token)
  {
    RunKeepsInv(EMPTY, before);
    RunOnScope(Run(EMPTY, before), later, token.scope);
  }

  /**
   Why re-creation is excluded: bootstrapping a scope that exists admits exactly the first token of the new
   generation, also when that very token had been superseded before.
   */
  lemma BootstrapRevivesExactlyItsFirstToken(t: Table, token: FenceToken, generation: string)
    requires Bootstrap(t, token.scope, generation).answer.Ok?
    ensures Admits(Bootstrap(t, token.scope, generation).state, token) <==>
            token.epoch == 1 && token.generation == generation
  {
  }

  // ----- What the swap alone does not look at -----

  /** The swap wins exactly under these conditions, none of which is about the state of the record. */
  lemma SuccessorWinsIff(
    t: Table, scope: string, epoch: int, generation: string, nextGeneration: string, nextState: string)
    ensures var o := Successor(t, scope, epoch, generation, nextGeneration, nextState);
            && (o.answer.Ok? && o.answer.value.Some? <==>
                  && scope in t && t[scope].epoch == epoch && t[scope].generation == generation
                  && 0 <= epoch < MAX_SIGNED_BIGINT
                  && ValidIdentifier(scope) && ValidIdentifier(nextGeneration) && ValidIdentifier(nextState))
            && (o.answer.Ok? && o.answer.value.Some? ==>
                  o.state == t[scope := FenceRecord(scope, epoch + 1, nextGeneration, nextState)])
            && (!(o.answer.Ok? && o.answer.value.Some?) ==> o.state == t)
  {
  }

  /** Whatever state the stored record is in, the swap answers and leaves the scope the same. */
  lemma SuccessorIgnoresState(
    t: Table, scope: string, state: string, epoch: int, generation: string, nextGeneration: string, nextState: string)
    requires scope in t
    ensures var o := Successor(t, scope, epoch, generation, nextGeneration, nextState);
            var t' := t[scope := t[scope].(state := state)];
            var o' := Successor(t', scope, epoch, generation, nextGeneration, nextState);
            && o'.answer == o.answer
            && (o.answer.Ok? && o.answer.value.Some? ==> o'.state == o.state)
  {
    var t' := t[scope := t[scope].(state := state)];
    var next := FenceRecord(scope, t[scope].epoch + 1, nextGeneration, nextState);
    assert t'[scope := next] == t[scope := next];
  }

  /** A run of the authority: the scope is bootstrapped, and its active record is then swapped for a sealed one. */
  function SealedTable(): Table {
    Successor(Bootstrap(map[], "s", "g").state, "s", 1, "g", "h", "sealed").state
  }

  /**
   The input on which the two differ, reached from the empty table: an acquisition refuses to read a sealed record,
   while the swap by itself replaces it by an active one, whose token is then admitted.
   */
  lemma SwapReopensSealedScope(expectedGeneration: Option<string>)
    ensures var o := Successor(SealedTable(), "s", 2, "h", "i", ACTIVE);
            && SealedTable() == map["s" := FenceRecord("s", 2, "h", "sealed")]
            && Read(SealedTable(), Request("s", 2, "i", ACTIVE, expectedGeneration)).Err?
            && o.answer == Ok(Some(FenceRecord("s", 3, "i", ACTIVE)))
            && Admits(o.state, FenceToken("s", 3, "i"))
  {
    assert ValidIdentifier("s") && ValidIdentifier("g") && ValidIdentifier("h") && ValidIdentifier("i");
    assert ValidIdentifier(ACTIVE) && ValidIdentifier("sealed");
    assert Bootstrap(map[], "s", "g").state == map["s" := FenceRecord("s", 1, "g", ACTIVE)];
  }

  // ----- Every call, field by field -----

  lemma BootstrapOutcome(t: Table, scope: string, generation: string)
    ensures Bootstrap(t, scope, generation) ==
            if ValidIdentifier(scope) && ValidIdentifier(generation) then
              var record := FenceRecord(scope, 1, generation, "active");
              Outcome(t[scope := record], Ok(record))
            else Outcome(t, Err(ValueError))
  {
    assert ValidIdentifier("active");
  }

  /** An acquisition may be started exactly for the active record of the expected epoch and generation. */
  predicate Acquirable(t: Table, q: Request) {
    && ValidIdentifier(q.scope) && ValidIdentifier(q.nextGeneration) && ValidIdentifier(q.nextState)
    && 0 < q.expectedEpoch < 9_223_372_036_854_775_807
    && q.scope in t
    && t[q.scope].scope == q.scope && t[q.scope].state == "active" && t[q.scope].epoch == q.expectedEpoch
    && (q.expectedGeneration.Some? ==>
          ValidIdentifier(q.expectedGeneration.value) && q.expectedGeneration.value == t[q.scope].generation)
  }

  lemma ReadOutcome(t: Table, q: Request)
    ensures Read(t, q).Ok? <==> Acquirable(t, q)
    ensures Read(t, q).Ok? ==> Read(t, q).value == Intent(q, t[q.scope])
    ensures Read(t, q).Err? ==> Read(t, q).error == AdmissionDenied
  {
  }

  /** An acquisition that nothing interleaves with wins whenever it may be started, and answers what it stores. */
  lemma AcquireOutcome(t: Table, q: Request)
    requires Acquirable(t, q)
    ensures var winner := FenceRecord(q.scope, q.expectedEpoch + 1, q.nextGeneration, q.nextState);
            Swap(t, Read(t, q).value) == Outcome(t[q.scope := winner], Ok(winner))
  {
    ReadOutcome(t, q);
  }

  lemma AdmitOutcome(t: Table, token: FenceToken)
    ensures Admits(t, token) <==>
            && token.scope in t && t[token.scope].scope == token.scope && t[token.scope].state == "active"
            && t[token.scope].epoch == token.epoch && t[token.scope].generation == token.generation
  {
  }

  /** After a win the new token is admitted exactly if the new state is active, and no token of the old epoch is. */
  lemma WinnerReplacesToken(t: Table, q: Request, generation: string)
    requires Acquirable(t, q)
    ensures var t' := Swap(t, Read(t, q).value).state;
            && (Admits(t', FenceToken(q.scope, q.expectedEpoch + 1, q.nextGeneration)) <==> q.nextState == "active")
            && !Admits(t', FenceToken(q.scope, q.expectedEpoch, generation))
  {
    AcquireOutcome(t, q);
  }
}
