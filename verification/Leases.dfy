/**
 What the three ledgers share: a record has a generation and is either idle or held by one
 issued claim. The laws about issued claims are proved here once, over the slot alone, and each
 ledger then shows that all of its calls are slot steps.
 */
module Leases {
  import opened Foundation

  datatype Slot<+C> = Idle(generation: nat) | Held(generation: nat, claim: C)

  datatype Grant<+K, +C> = Grant(key: K, generation: nat, claim: C)

  /** A slot keeps its value, loses its holder, or is granted anew at the next generation. */
  ghost predicate SlotStep<C>(s: Slot<C>, t: Slot<C>, granted: Option<C>) {
    if granted.Some? then t == Held(s.generation + 1, granted.value)
    else t == s || t == Idle(s.generation)
  }

  /** At most one slot is granted in a step; new slots start idle at generation 0 and none disappears. */
  ghost predicate TableStep<K, C>(t: map<K, Slot<C>>, u: map<K, Slot<C>>, granted: Option<Grant<K, C>>) {
    && (granted.Some? ==> granted.value.key in t && granted.value.generation == t[granted.value.key].generation + 1)
    && (forall k | k in t ::
          && k in u
          && SlotStep(t[k], u[k],
                      if granted.Some? && granted.value.key == k then Some(granted.value.claim) else None))
    && (forall k | k in u && k !in t :: u[k] == Idle(0))
  }

  /** A generation is retired once the slot has moved past it or has lost its holder. */
  predicate Retired<C>(s: Slot<C>, generation: nat) {
    generation < s.generation || (generation == s.generation && s.Idle?)
  }

  /**
   `grants` is the list of claims issued so far, oldest first. Every claim is retired or is the
   one its slot holds, and generations strictly increase slot by slot.
   */
  ghost predicate History<K(!new), C(!new)>(t: map<K, Slot<C>>, grants: seq<Grant<K, C>>) {
    && (forall i | 0 <= i < |grants| ::
          && grants[i].key in t
          && (|| Retired(t[grants[i].key], grants[i].generation)
              || t[grants[i].key] == Held(grants[i].generation, grants[i].claim)))
    && (forall i, j | 0 <= i < j < |grants| && grants[i].key == grants[j].key ::
          grants[i].generation < grants[j].generation)
  }

  function AsSeq<T>(x: Option<T>): seq<T> { if x.Some? then [x.value] else [] }

  lemma HistoryStep<K(!new), C(!new)>(
    t: map<K, Slot<C>>, u: map<K, Slot<C>>, grants: seq<Grant<K, C>>, granted: Option<Grant<K, C>>)
    requires History(t, grants) && TableStep(t, u, granted)
    ensures History(u, grants + AsSeq(granted))
  {
    var all := grants + AsSeq(granted);
    forall i | 0 <= i < |all|
      ensures all[i].key in u
      ensures || Retired(u[all[i].key], all[i].generation)
              || u[all[i].key] == Held(all[i].generation, all[i].claim)
    {
      if i < |grants| {
        assert all[i] == grants[i];
      }
    }
    forall i, j | 0 <= i < j < |all| && all[i].key == all[j].key
      ensures all[i].generation < all[j].generation
    {
      assert all[i] == grants[i];
      if j < |grants| {
        assert all[j] == grants[j];
      }
    }
  }
}
