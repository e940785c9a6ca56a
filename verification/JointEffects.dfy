/**
 Effects across both ledgers: joint runs in which effects also happen in the outside world, seen from a receipt.
 */
module JointEffects {
  import opened Foundation
  import OP = OperationProofs
  import I = InboxSpec
  import J = JointRuns

  /** `effects` holds the operation attempts whose effect has happened. */
  datatype World = World(joint: J.World, effects: set<(string, nat)>)

  datatype Event = Called(call: J.Call) | EffectHappens(operationId: string, generation: nat)

  const START := World(J.START, {})

  /** What the operation ledger's own laws about effects speak of. */
  function Operations(w: World): OP.World { OP.World(w.joint.operations, w.effects) }

  /** Inbox calls are nothing to the operation ledger. */
  function OperationEvent(e: Event): Option<OP.Event> {
    match e
    case EffectHappens(id, g) => Some(OP.EffectHappens(id, g))
    case Called(OnOperations(c)) => Some(OP.Ledgered(c))
    case Called(OnInbox(_)) => None
  }

  function After(w: World, e: Event): World {
    match e
    case EffectHappens(id, g) => w.(effects := w.effects + {(id, g)})
    case Called(c) => w.(joint := J.Step(w.joint, c))
  }

  function EndOf(w: World, events: seq<Event>): World
    decreases |events|
  {
    if events == [] then w else EndOf(After(w, events[0]), events[1..])
  }

  /** The reconciler is truthful about the operation ledger; nothing is asked of the inbox or of executors. */
  ghost predicate TruthfulRun(w: World, events: seq<Event>)
    decreases |events|
  {
    events != [] ==>
      && (OperationEvent(events[0]).Some? ==> OP.Truthful(Operations(w), OperationEvent(events[0]).value))
      && TruthfulRun(After(w, events[0]), events[1..])
  }

  lemma {:induction false} RunKeepsEffects(w: World, events: seq<Event>)
    requires OP.EffectsSound(Operations(w)) && TruthfulRun(w, events)
    ensures OP.EffectsSound(Operations(EndOf(w, events)))
    decreases |events|
  {
    if events != [] {
      var e := OperationEvent(events[0]);
      if e.Some? {
        OP.TruthfulStepKeepsEffects(Operations(w), e.value);
        assert Operations(After(w, events[0])) == OP.After(Operations(w), e.value);
      }
      RunKeepsEffects(After(w, events[0]), events[1..]);
    }
  }

  predicate BoundTo(w: World, key: I.Key, id: string) {
    key in w.joint.inbox.receipts && w.joint.inbox.receipts[key].operationId == Some(id)
  }

  lemma {:induction false} RunKeepsBinding(w: World, events: seq<Event>, key: I.Key, id: string)
    requires BoundTo(w, key, id)
    ensures BoundTo(EndOf(w, events), key, id)
    decreases |events|
  {
    if events != [] {
      if events[0].Called? {
        J.StepKeepsBinding(w.joint, events[0].call, key);
      }
      RunKeepsBinding(After(w, events[0]), events[1..], key, id);
    }
  }

  /**
   With a truthful reconciler a receipt that was ever bound to an operation has at most one effect through it, in
   whatever order both ledgers are called and however late an executor acts. The binding never changes, so this is
   the effect of the message; it belongs to the operation's current generation, which is not open for another attempt.
   */
  lemma AtMostOneEffectPerReceipt(before: seq<Event>, later: seq<Event>, key: I.Key, id: string)
    requires TruthfulRun(START, before) && TruthfulRun(EndOf(START, before), later)
    requires BoundTo(EndOf(START, before), key, id)
    ensures var w := EndOf(EndOf(START, before), later);
            && BoundTo(w, key, id)
            && (forall g, g' | (id, g) in w.effects && (id, g') in w.effects :: g == g')
            && (forall g | (id, g) in w.effects ::
                  && id in w.joint.operations.operations
                  && g == w.joint.operations.operations[id].attemptGeneration
                  && !w.joint.operations.operations[id].state.Prepared?)
  {
    var w := EndOf(EndOf(START, before), later);
    RunKeepsEffects(START, before);
    RunKeepsEffects(EndOf(START, before), later);
    RunKeepsBinding(EndOf(START, before), later, key, id);
    forall g | (id, g) in w.effects
      ensures id in w.joint.operations.operations
      ensures g == w.joint.operations.operations[id].attemptGeneration
      ensures !w.joint.operations.operations[id].state.Prepared?
    {
      OP.SoundEffectIsCurrent(Operations(w), id, g);
    }
  }
}
