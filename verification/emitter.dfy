/** The `Emitter` class of src/emitter.ts as an immutable state and pure
    transitions. The state is the pair of registries the class keeps: the
    persistent one (`_events`) and the one-shot one (`_oneTimeEvents`), each a
    dictionary from event name to the ordered listeners registered for it. A
    name is either absent from a registry or present, possibly with an empty
    sequence; the two are told apart by `off` and `emit`. */
module Emitter {
  import opened Listeners
  import opened Dispatcher

  type EventName = string

  type Registry = map<EventName, seq<Listener>>

  /** The listeners registered under `e`; an absent entry reads as empty
      (the `?.length || 0` and `?.filter(...) || []` of the source). */
  function Lookup(t: Registry, e: EventName): seq<Listener>
  {
    if e in t then t[e] else []
  }

  datatype State = State(events: Registry, oneTimeEvents: Registry)

  /** The only error the emitter raises. */
  datatype Error = UnknownEvent(event: EventName)

  /** The text of the error `off` throws: a fixed 32-character lead-in, the
      event name, and a fixed 16-character tail (with the source's spelling
      "exits"), so the name can be read back from the text. */
  function Message(err: Error): (m: string)
    ensures |m| == 32 + |err.event| + 16
    ensures m[32..32 + |err.event|] == err.event
    ensures m[..32] == "Can't remove a listener. Event \""
    ensures m[32 + |err.event|..] == "\" doesn't exits."
  {
    "Can't remove a listener. Event \"" + err.event + "\" doesn't exits."
  }

  datatype Result<T> = Ok(value: T) | Err(error: Error)

  /** What `on` and `once` leave behind and hand back. */
  datatype Registered = Registered(state: State, listener: Listener)

  /** What a successful `off` leaves behind and hands back. */
  datatype Removed = Removed(state: State, returned: bool)

  /** What `emit` leaves behind, with the listener calls it made in order. */
  datatype Emitted<D> = Emitted(state: State, trace: seq<Call<D>>)

  /** `l` is registered for `e`, persistently or for one emission. */
  predicate IsRegistered(s: State, e: EventName, l: Listener)
  {
    l in Lookup(s.events, e) || l in Lookup(s.oneTimeEvents, e)
  }

  /** How many times `l` is registered for `e`, over both registries. */
  function Occurrences(s: State, e: EventName, l: Listener): nat
  {
    multiset(Lookup(s.events, e))[l] + multiset(Lookup(s.oneTimeEvents, e))[l]
  }

  /** A freshly constructed emitter: both registries empty. */
  function Init(): (s: State)
    ensures forall e :: ListenersCount(s, e) == 0
    ensures forall e, f :: Off(s, e, f).Err?
  {
    State(map[], map[])
  }

  /** The number of listeners registered for `e`, over both registries. It is
      zero exactly when nothing is registered for `e`, and it counts every
      registered occurrence of every listener. */
  function ListenersCount(s: State, e: EventName): (n: nat)
    ensures n == 0 <==> forall l :: !IsRegistered(s, e, l)
    ensures forall l :: Occurrences(s, e, l) <= n
  {
    var persistent := Lookup(s.events, e);
    var oneShot := Lookup(s.oneTimeEvents, e);
    assert persistent != [] ==> IsRegistered(s, e, persistent[0]);
    assert oneShot != [] ==> IsRegistered(s, e, oneShot[0]);
    |persistent| + |oneShot|
  }

  /** `on`: appends `f` to the persistent listeners of `e`, creating the entry
      when absent, and hands `f` back. The one-shot registry and every other
      event name are untouched. */
  function On(s: State, e: EventName, f: Listener): (r: Registered)
    ensures r.listener == f
    ensures e in r.state.events && r.state.events[e] == Lookup(s.events, e) + [f]
    ensures r.state.events - {e} == s.events - {e}
    ensures r.state.oneTimeEvents == s.oneTimeEvents
    ensures ListenersCount(r.state, e) == ListenersCount(s, e) + 1
    ensures forall k :: k != e ==> ListenersCount(r.state, k) == ListenersCount(s, k)
  {
    Registered(State(s.events[e := Lookup(s.events, e) + [f]], s.oneTimeEvents), f)
  }

  /** `once`: appends `f` to the one-shot listeners of `e`, creating the entry
      when absent, and hands `f` back. The persistent registry and every other
      event name are untouched. */
  function Once(s: State, e: EventName, f: Listener): (r: Registered)
    ensures r.listener == f
    ensures e in r.state.oneTimeEvents && r.state.oneTimeEvents[e] == Lookup(s.oneTimeEvents, e) + [f]
    ensures r.state.oneTimeEvents - {e} == s.oneTimeEvents - {e}
    ensures r.state.events == s.events
    ensures ListenersCount(r.state, e) == ListenersCount(s, e) + 1
    ensures forall k :: k != e ==> ListenersCount(r.state, k) == ListenersCount(s, k)
  {
    Registered(State(s.events, s.oneTimeEvents[e := Lookup(s.oneTimeEvents, e) + [f]]), f)
  }

  /** `off`: fails with `UnknownEvent(e)` exactly when `e` is absent from
      both registries. Otherwise it filters every occurrence of `f` out of
      both sequences of `e`, keeping the others in order, returns `true`, and
      leaves `e` present in both registries (possibly with empty sequences).
      How the remaining listeners relate to the old ones is stated by
      `EmitterProperties.OffFilters`. The count drops by the number of occurrences removed; every other event
      name is untouched. */
  function Off(s: State, e: EventName, f: Listener): (r: Result<Removed>)
    ensures r.Err? <==> e !in s.events && e !in s.oneTimeEvents
    ensures r.Err? ==> r.error == UnknownEvent(e)
    ensures r.Ok? ==> r.value.returned
    ensures r.Ok? ==> e in r.value.state.events && e in r.value.state.oneTimeEvents
    ensures r.Ok? ==> !IsRegistered(r.value.state, e, f)
    ensures r.Ok? ==> ListenersCount(r.value.state, e) == ListenersCount(s, e) - Occurrences(s, e, f)
    ensures r.Ok? ==> r.value.state.events - {e} == s.events - {e}
    ensures r.Ok? ==> r.value.state.oneTimeEvents - {e} == s.oneTimeEvents - {e}
  {
    if e !in s.events && e !in s.oneTimeEvents then Err(UnknownEvent(e))
    else
      var persistent := Without(Lookup(s.events, e), f);
      var oneShot := Without(Lookup(s.oneTimeEvents, e), f);
      WithoutIsFiltered(Lookup(s.events, e), f);
      WithoutIsFiltered(Lookup(s.oneTimeEvents, e), f);
      var r := State(s.events[e := persistent], s.oneTimeEvents[e := oneShot]);
      assert Lookup(r.events, e) == persistent && Lookup(r.oneTimeEvents, e) == oneShot;
      Ok(Removed(r, true))
  }

  /** `removeAllListeners`: back to the state of a fresh emitter, so every
      count is zero and every `off` fails. */
  function RemoveAllListeners(s: State): (r: State)
    ensures r.events == map[] && r.oneTimeEvents == map[]
    ensures forall e :: ListenersCount(r, e) == 0
    ensures forall e, f :: Off(r, e, f).Err?
  {
    Init()
  }

  /** `emit`: with no persistent entry for `e` nothing is called and nothing
      changes, even when one-shot listeners exist. Otherwise the persistent
      listeners are dispatched, then the one-shot ones (when the entry
      exists), each stack in its own mode. The persistent registry is never
      changed; the one-shot entry is deleted only when its dispatch returned
      a promise, that is when its first listener is async. */
  function Emit<D>(s: State, e: EventName, data: D): (r: Emitted<D>)
    ensures r.state.events == s.events
    ensures e !in s.events ==> r.state == s && r.trace == []
    ensures e in s.events ==>
      var persistent := s.events[e];
      var oneShot := Lookup(s.oneTimeEvents, e);
      && |r.trace| == |persistent| + |oneShot|
      && (forall i :: 0 <= i < |persistent| ==>
            r.trace[i] == Call(persistent[i], ArgumentFor(persistent, data)))
      && (forall i :: 0 <= i < |oneShot| ==>
            r.trace[|persistent| + i] == Call(oneShot[i], ArgumentFor(oneShot, data)))
      && r.state.oneTimeEvents == if LeadIsAsync(oneShot) then s.oneTimeEvents - {e} else s.oneTimeEvents
  {
    if e !in s.events then Emitted(s, [])
    else
      var persistent := Dispatch(s.events[e], data);
      if e !in s.oneTimeEvents then Emitted(s, persistent.calls)
      else
        var oneShot := Dispatch(s.oneTimeEvents[e], data);
        var oneTimeEvents := if oneShot.returnsPromise then s.oneTimeEvents - {e} else s.oneTimeEvents;
        Emitted(State(s.events, oneTimeEvents), persistent.calls + oneShot.calls)
  }
}
