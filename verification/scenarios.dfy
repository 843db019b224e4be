/** Concrete runs of the model on the set-ups of test/emitter.spec.ts, plus
    a one-shot scenario: `emit` returns before reading the one-shot registry
    when the event has no persistent entry. On the async set-up the model
    shows what the code does, which is not what that test expects (the
    listeners are called without the payload); the dispatch that meets the
    test's expectation is `Dispatcher.DispatchWithData`. Listener references
    are small numbers; the payload is any value. */
module EmitterScenarios {
  import opened Listeners
  import opened Dispatcher
  import opened Emitter
  import opened EmitterProperties

  const first := Listener(1, false)
  const second := Listener(2, false)
  const firstAsync := Listener(3, true)
  const secondAsync := Listener(4, true)

  /** Two synchronous listeners on "data": the count is 2, and one emission
      calls the first and then the second, both with the emitted payload. */
  lemma EmitTwoSyncListeners<D>(data: D)
    ensures var s := On(On(Init(), "data", first).state, "data", second).state;
      && ListenersCount(s, "data") == 2
      && Emit(s, "data", data).trace == [Call(first, Payload(data)), Call(second, Payload(data))]
  {
    var s := On(On(Init(), "data", first).state, "data", second).state;
    assert s.events["data"] == [first, second];
  }

  /** Two async listeners on "asyncData": both are called, in order, and on
      this path without the payload. */
  lemma EmitTwoAsyncListeners<D>(data: D)
    ensures var s := On(On(Init(), "asyncData", firstAsync).state, "asyncData", secondAsync).state;
      && ListenersCount(s, "asyncData") == 2
      && Emit(s, "asyncData", data).trace == [Call(firstAsync, NoArgument), Call(secondAsync, NoArgument)]
  {
    var s := On(On(Init(), "asyncData", firstAsync).state, "asyncData", secondAsync).state;
    assert s.events["asyncData"] == [firstAsync, secondAsync];
  }

  /** Removing two listeners one by one takes the count from 2 to 1 to 0. */
  lemma RemoveListenersOneByOne()
    ensures var s := On(On(Init(), "data", first).state, "data", second).state;
      && Off(s, "data", first).Ok?
      && ListenersCount(Off(s, "data", first).value.state, "data") == 1
      && Off(Off(s, "data", first).value.state, "data", second).Ok?
      && ListenersCount(Off(Off(s, "data", first).value.state, "data", second).value.state, "data") == 0
  {
    var s := On(On(Init(), "data", first).state, "data", second).state;
    assert s.events["data"] == [first, second];
    assert multiset(s.events["data"])[first] == 1;
    var t := Off(s, "data", first).value.state;
    assert t.events["data"] == [second] by {
      WithoutIsFiltered(s.events["data"], first);
      FilteredIsWithout([second], s.events["data"], first);
    }
    assert multiset(t.events["data"])[second] == 1;
  }

  /** Two listeners on "data" and two async listeners on "asyncData" give
      counts of 2 and 2; after `removeAllListeners` both counts are zero. */
  lemma RemoveAllListenersClearsCounts()
    ensures var s := On(On(On(On(Init(), "data", first).state, "data", second).state,
                          "asyncData", firstAsync).state, "asyncData", secondAsync).state;
      && ListenersCount(s, "data") == 2
      && ListenersCount(s, "asyncData") == 2
      && ListenersCount(RemoveAllListeners(s), "data") == 0
      && ListenersCount(RemoveAllListeners(s), "asyncData") == 0
  {
  }

  /** A one-shot listener alone on "x" is not emitted; after an `off` of an
      unrelated listener has written `[]` under the persistent key, the same
      emission calls it. */
  lemma OffUnblocksOneShot<D>(data: D)
    ensures var s := Once(Init(), "x", firstAsync).state;
      && Emit(s, "x", data).trace == []
      && Off(s, "x", second).Ok?
      && Emit(Off(s, "x", second).value.state, "x", data).trace == [Call(firstAsync, NoArgument)]
  {
    var s := Once(Init(), "x", firstAsync).state;
    OffMaterialisesPersistentEntry(s, "x", second, data);
    WithoutAbsent([firstAsync], second);
  }

  /** Two async one-shot listeners and no persistent entry: `emit` returns
      before looking at the one-shot registry, so neither is called and the
      count stays at 2. */
  lemma OneShotAloneIsNeverEmitted<D>(data: D)
    ensures var s := Once(Once(Init(), "asyncData", firstAsync).state, "asyncData", secondAsync).state;
      && Emit(s, "asyncData", data) == Emitted(s, [])
      && ListenersCount(s, "asyncData") == 2
  {
  }

  /** With the corrected dispatch, the two async listeners of the async test
      are called in order and each receives the payload, which is what the
      test's listeners read; a promise is still returned. */
  lemma AsyncListenersGetPayloadWhenCorrected<D>(data: D)
    ensures var r := DispatchWithData([firstAsync, secondAsync], data);
      && r.calls == [Call(firstAsync, Payload(data)), Call(secondAsync, Payload(data))]
      && r.returnsPromise
  {
  }

  /** The async test's expectation fails on the code as written: its first
      listener is called, but not with the payload. */
  lemma AsyncListenersMissPayloadAsWritten<D>(data: D)
    ensures var s := On(On(Init(), "asyncData", firstAsync).state, "asyncData", secondAsync).state;
      Emit(s, "asyncData", data).trace[0].arg != Payload(data)
  {
    EmitTwoAsyncListeners(data);
  }
}
