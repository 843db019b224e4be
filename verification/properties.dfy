/** Properties that relate several emitter operations: `off` undoing `on` and
    `once`, `off` being idempotent, and what repeated emissions do to the
    one-shot registry. */
module EmitterProperties {
  import opened Listeners
  import opened Dispatcher
  import opened Emitter

  /** The state a successful `off` produces, spelled out. */
  lemma OffResult(s: State, e: EventName, f: Listener)
    requires e in s.events || e in s.oneTimeEvents
    ensures Off(s, e, f) == Ok(Removed(State(
      s.events[e := Without(Lookup(s.events, e), f)],
      s.oneTimeEvents[e := Without(Lookup(s.oneTimeEvents, e), f)]), true))
  {
  }

  /** `off` filters `f` out of both sequences of `e`: the other listeners
      stay, with their multiplicities and in their relative order, and every
      occurrence of `f` goes. */
  lemma OffFilters(s: State, e: EventName, f: Listener)
    requires Off(s, e, f).Ok?
    ensures IsFiltered(Off(s, e, f).value.state.events[e], Lookup(s.events, e), f)
    ensures IsFiltered(Off(s, e, f).value.state.oneTimeEvents[e], Lookup(s.oneTimeEvents, e), f)
  {
    OffResult(s, e, f);
    WithoutIsFiltered(Lookup(s.events, e), f);
    WithoutIsFiltered(Lookup(s.oneTimeEvents, e), f);
  }

  /** Removing a listener right after adding it persistently gives the same
      outcome as removing it without having added it. */
  lemma OffCancelsOn(s: State, e: EventName, f: Listener)
    requires e in s.events || e in s.oneTimeEvents
    ensures Off(On(s, e, f).state, e, f) == Off(s, e, f)
  {
    var t := On(s, e, f).state;
    var p := Lookup(s.events, e);
    WithoutConcat(p, [f], f);
    assert Without([f], f) == [];
    assert Without(Lookup(t.events, e), f) == Without(p, f);
    assert t.events[e := Without(p, f)] == s.events[e := Without(p, f)];
    OffResult(s, e, f);
    OffResult(t, e, f);
  }

  /** Removing a listener right after adding it for one emission gives the
      same outcome as removing it without having added it. */
  lemma OffCancelsOnce(s: State, e: EventName, f: Listener)
    requires e in s.events || e in s.oneTimeEvents
    ensures Off(Once(s, e, f).state, e, f) == Off(s, e, f)
  {
    var t := Once(s, e, f).state;
    var o := Lookup(s.oneTimeEvents, e);
    WithoutConcat(o, [f], f);
    assert Without([f], f) == [];
    assert Without(Lookup(t.oneTimeEvents, e), f) == Without(o, f);
    assert t.oneTimeEvents[e := Without(o, f)] == s.oneTimeEvents[e := Without(o, f)];
    OffResult(s, e, f);
    OffResult(t, e, f);
  }

  /** `off` of a listener that is not registered for a known event does not
      throw, changes no sequence and no count. */
  lemma OffOfUnregistered(s: State, e: EventName, f: Listener)
    requires e in s.events || e in s.oneTimeEvents
    requires !IsRegistered(s, e, f)
    ensures Off(s, e, f).Ok?
    ensures Lookup(Off(s, e, f).value.state.events, e) == Lookup(s.events, e)
    ensures Lookup(Off(s, e, f).value.state.oneTimeEvents, e) == Lookup(s.oneTimeEvents, e)
    ensures ListenersCount(Off(s, e, f).value.state, e) == ListenersCount(s, e)
  {
    WithoutAbsent(Lookup(s.events, e), f);
    WithoutAbsent(Lookup(s.oneTimeEvents, e), f);
  }

  /** When `e` is present in both registries and `f` is not registered for
      it, `off` leaves the state exactly as it was. */
  lemma OffOfUnregisteredIsIdentity(s: State, e: EventName, f: Listener)
    requires e in s.events && e in s.oneTimeEvents
    requires !IsRegistered(s, e, f)
    ensures Off(s, e, f) == Ok(Removed(s, true))
  {
    OffResult(s, e, f);
    WithoutAbsent(s.events[e], f);
    WithoutAbsent(s.oneTimeEvents[e], f);
    assert s.events[e := s.events[e]] == s.events;
    assert s.oneTimeEvents[e := s.oneTimeEvents[e]] == s.oneTimeEvents;
  }

  /** When `e` is present in both registries and `f` is not registered for
      it, `on` followed by `off` restores the exact state. */
  lemma OnOffRoundTrip(s: State, e: EventName, f: Listener)
    requires e in s.events && e in s.oneTimeEvents
    requires !IsRegistered(s, e, f)
    ensures Off(On(s, e, f).state, e, f) == Ok(Removed(s, true))
  {
    OffCancelsOn(s, e, f);
    OffOfUnregisteredIsIdentity(s, e, f);
  }

  /** A second `off` of the same listener never throws and changes nothing. */
  lemma OffIdempotent(s: State, e: EventName, f: Listener)
    requires Off(s, e, f).Ok?
    ensures Off(Off(s, e, f).value.state, e, f) == Off(s, e, f)
  {
    OffOfUnregisteredIsIdentity(Off(s, e, f).value.state, e, f);
  }

  /** The persistent listeners of `e` are the first calls of an emission:
      each registered occurrence once, in registration order. */
  lemma EmitInvokesPersistentInOrder<D>(s: State, e: EventName, data: D)
    requires e in s.events
    ensures |s.events[e]| <= |Emit(s, e, data).trace|
    ensures Callees(Emit(s, e, data).trace[..|s.events[e]|]) == s.events[e]
  {
  }

  /** With a synchronous (or no) first one-shot listener, `emit` changes no
      state at all: the one-shot listeners stay registered, and the next
      emission makes exactly the same calls again. */
  lemma SyncOneShotFiresAgain<D>(s: State, e: EventName, data: D)
    requires !LeadIsAsync(Lookup(s.oneTimeEvents, e))
    ensures Emit(s, e, data).state == s
    ensures Emit(Emit(s, e, data).state, e, data) == Emit(s, e, data)
  {
  }

  /** With an async first one-shot listener, the one-shot listeners fire on
      the first emission only: the second one calls the persistent listeners
      alone and changes nothing further. */
  lemma AsyncOneShotFiresOnce<D>(s: State, e: EventName, data: D)
    requires e in s.events
    requires LeadIsAsync(Lookup(s.oneTimeEvents, e))
    ensures var first := Emit(s, e, data);
      && |first.trace| == |s.events[e]| + |s.oneTimeEvents[e]|
      && e !in first.state.oneTimeEvents
      && Emit(first.state, e, data) == Emitted(first.state, first.trace[..|s.events[e]|])
  {
    var first := Emit(s, e, data);
    var second := Emit(first.state, e, data);
    assert Lookup(first.state.oneTimeEvents, e) == [];
    assert second.trace == first.trace[..|s.events[e]|];
  }

  /** Registered one-shot listeners are never called while the persistent
      registry has no entry for the event. */
  lemma OneShotNeedsPersistentEntry<D>(s: State, e: EventName, data: D)
    requires e !in s.events
    ensures ListenersCount(Emit(s, e, data).state, e) == ListenersCount(s, e)
    ensures Emit(s, e, data).trace == []
  {
  }

  /** `emit` lowers the count of `e` by the size of the one-shot sequence
      exactly when it deletes that sequence, and leaves every other count. */
  lemma EmitCount<D>(s: State, e: EventName, data: D)
    ensures var deleted := e in s.events && LeadIsAsync(Lookup(s.oneTimeEvents, e));
      ListenersCount(Emit(s, e, data).state, e)
        == ListenersCount(s, e) - (if deleted then |s.oneTimeEvents[e]| else 0)
    ensures forall k :: k != e ==> ListenersCount(Emit(s, e, data).state, k) == ListenersCount(s, k)
  {
    var r := Emit(s, e, data).state;
    forall k | k != e
      ensures ListenersCount(r, k) == ListenersCount(s, k)
    {
      assert Lookup(r.oneTimeEvents, k) == Lookup(s.oneTimeEvents, k);
    }
  }

  /** On an event that has only a one-shot entry, `emit` calls nothing, but
      any successful `off` writes `[]` under the persistent key, after which
      `emit` no longer returns early and calls the remaining one-shot
      listeners in order. */
  lemma OffMaterialisesPersistentEntry<D>(s: State, e: EventName, f: Listener, data: D)
    requires e !in s.events && e in s.oneTimeEvents
    ensures Emit(s, e, data).trace == []
    ensures Off(s, e, f).Ok?
    ensures var t := Off(s, e, f).value.state;
      && t.events[e] == []
      && t.oneTimeEvents[e] == Without(s.oneTimeEvents[e], f)
      && Callees(Emit(t, e, data).trace) == Without(s.oneTimeEvents[e], f)
  {
    OffResult(s, e, f);
    var t := Off(s, e, f).value.state;
    assert Lookup(s.events, e) == [];
    assert t.events[e] == Without([], f) == [];
    var r := Emit(t, e, data);
    assert |r.trace| == |t.oneTimeEvents[e]|;
    forall i | 0 <= i < |r.trace|
      ensures Callees(r.trace)[i] == t.oneTimeEvents[e][i]
    {
      assert r.trace[0 + i] == Call(t.oneTimeEvents[e][i], ArgumentFor(t.oneTimeEvents[e], data));
    }
  }
}
