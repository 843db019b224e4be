# typed-emitter: a verified model of `Emitter`

This project models the `Emitter` class of the typed-emitter library
(`src/emitter.ts`): a small publish/subscribe registry in which anyone may
subscribe to a named event with `on` or `once`, unsubscribe with `off`, clear
everything with `removeAllListeners` and read `listenersCount`, while only the
owning subclass can `emit`.

The class keeps two dictionaries from event name to an ordered array of
listeners: the persistent one (`_events`) and the one-shot one
(`_oneTimeEvents`). The model is functional: `Emitter.State` holds the two
dictionaries as `map<string, seq<Listener>>`, and every method is a pure
transition returning the new state together with what the method hands back
(the listener for `on`/`once`, `true` or an `UnknownEvent` error for `off`, and
for `emit` the trace of listener calls it made, in order).

- `listeners.dfy` (module `Listeners`): the listener value (a reference
  identity plus the async/sync kind the runtime would report for it), the
  removal `off` applies to an array (`Without`), and an independent description
  of that removal (`IsFiltered`: order kept, multiplicities of others kept, every
  occurrence of the removed listener gone) proved equivalent to it.
- `dispatcher.dfy` (module `Dispatcher`): the protected `_emit`, which picks
  the dispatch mode of a whole array from its first listener.
- `emitter.dfy` (module `Emitter`): the state and the public operations.
- `properties.dfy` (module `EmitterProperties`): laws that relate several
  operations (`off` undoing `on`/`once`, `off` idempotent, repeated emission
  and the one-shot registry, counts across `emit`).
- `scenarios.dfy` (module `EmitterScenarios`): concrete runs of the model on
  the set-ups of `test/emitter.spec.ts`, and a one-shot scenario. On the async
  set-up the model disagrees with that test's expectation (see Findings).

## Behaviour kept as written

- `emit` returns at once when the persistent dictionary has no entry for the
  event, so one-shot listeners registered for an event that has no persistent
  entry are never called (`EmitterProperties.OneShotNeedsPersistentEntry`,
  `EmitterScenarios.OneShotAloneIsNeverEmitted`).
- A successful `off` on such an event writes `[]` under the persistent key,
  and an empty array is still an entry, so from then on `emit` no longer
  returns early and the one-shot listeners start firing, even though `off`
  removed nothing they depend on (`EmitterProperties.OffMaterialisesPersistentEntry`,
  `EmitterScenarios.OffUnblocksOneShot`).
- The dispatch mode of a whole array is decided by its first listener. With
  an async first listener every listener is called without the data and a
  promise comes back; otherwise every listener is called with the data and
  nothing comes back, so later async listeners are started but not awaited.
- The one-shot entry is deleted only when its dispatch returned a promise,
  i.e. when its first listener is async. One-shot listeners headed by a
  synchronous listener fire on every emission and stay registered
  (`EmitterProperties.SyncOneShotFiresAgain`), although the names `once` and
  `_oneTimeEvents` suggest a single firing; the model follows the code.
- `off` throws only when the event is absent from both dictionaries. On
  success it writes the filtered arrays back under the event in both
  dictionaries, possibly as empty arrays, so the event stays "known" and a
  second `off` never throws.
- Listener identity is JavaScript reference identity (`!==`). A listener is
  modelled as `Listener(ref, isAsync)` and compared as a value. In the program
  a reference has a single kind; in the model that is the predicate
  `Listeners.WellKinded`, under which value equality is reference identity
  (`Listeners.EqualIffSameRef`). No operation or lemma assumes it: they all
  hold for arbitrary listener values, and on a state that mixes kinds for one
  reference `off` removes only the values equal to its argument. Duplicates
  are allowed and `off` removes every occurrence.

## Model

| member | source | states |
|---|---|---|
| `Listeners.EqualIffSameRef` | src/emitter.ts:66 | when every reference carries one kind, a listener equals the one being removed exactly when it has the same reference |
| `Listeners.Without` | src/emitter.ts:64-72 | the filtered array never contains the removed listener and is no longer than the original |
| `Listeners.WithoutIsFiltered` | src/emitter.ts:64-72 | the filter keeps the other listeners in their relative order and with their multiplicities, and its length drops by exactly the occurrences of the removed listener |
| `Listeners.FilteredIsWithout` | src/emitter.ts:64-72 | the filter is the only array with those properties: an array is an order-preserving, multiplicity-preserving removal of every occurrence of `f` if and only if it equals the filter's result |
| `Listeners.WithoutAbsent` | src/emitter.ts:64-72 | filtering out a listener that does not occur leaves the array unchanged |
| `Listeners.WithoutIdempotent` | src/emitter.ts:64-72 | filtering the same listener twice equals filtering it once |
| `Listeners.WithoutConcat` | src/emitter.ts:64-72 | filtering an array appended to another equals filtering each part and appending the results |
| `Dispatcher.CallEach` | src/emitter.ts:127-130 | each listener of the array is called once, in array order, with the same argument |
| `Dispatcher.Dispatch` | src/emitter.ts:122-131 | every listener is called once in order; a promise is returned exactly when the first listener is async; on that path every call gets no argument, otherwise every call gets the data |
| `Dispatcher.DispatchInvokesStack` | src/emitter.ts:127-130 | the listeners a dispatch calls are exactly the array, occurrence for occurrence, in order |
| `Dispatcher.SyncLeadHidesAsyncTail` | src/emitter.ts:126-130 | with a synchronous first listener, a later async listener is called with the data and no promise is returned for it |
| `Dispatcher.DispatchWithData` | src/emitter.ts:126-127 | the corrected async path: same calls, same order and same promise decision, but every listener receives the data |
| `Dispatcher.DispatchWithDataDiffersOnlyInArgument` | src/emitter.ts:126-130 | the corrected dispatch calls the same listeners in the same order and returns a promise in the same cases; it equals the code's dispatch exactly when the first listener is not async |
| `Emitter.Message` | src/emitter.ts:59-61 | the error text is the fixed lead-in `Can't remove a listener. Event "`, the event name, and the fixed 16-character tail `" doesn't exits.` (spelled as in the source), so the name can be read back from it |
| `Emitter.Init` | src/emitter.ts:11-16 | a fresh emitter reports zero listeners for every event, and `off` on any event throws |
| `Emitter.ListenersCount` | src/emitter.ts:139-144 | the count is zero exactly when no listener is registered for the event in either dictionary (absent entries read as empty), and it is at least the number of registrations of any single listener |
| `Emitter.On` | src/emitter.ts:25-32 | returns the listener; it becomes the last persistent listener of the event (entry created if absent); the count of the event rises by exactly one; other events and the one-shot dictionary are unchanged |
| `Emitter.Once` | src/emitter.ts:41-48 | returns the listener; it becomes the last one-shot listener of the event (entry created if absent); the count rises by exactly one; other events and the persistent dictionary are unchanged |
| `Emitter.Off` | src/emitter.ts:57-78 | throws `UnknownEvent` if and only if the event is absent from both dictionaries; otherwise returns `true`, leaves the event present in both, leaves no occurrence of the listener, lowers the count by exactly its number of occurrences and leaves other events unchanged |
| `Emitter.RemoveAllListeners` | src/emitter.ts:85-88 | both dictionaries are empty, every count is zero and a later `off` on any event throws |
| `Emitter.Emit` | src/emitter.ts:97-114 | no persistent entry: no call and no change; otherwise the persistent listeners are called in order, then the one-shot ones, each array with the argument its first listener's kind dictates; the persistent dictionary never changes and the one-shot entry is deleted exactly when its first listener is async |
| `EmitterProperties.OffFilters` | src/emitter.ts:64-75 | after a successful `off`, each array of the event is the order- and multiplicity-preserving removal of the listener from the old array (absent read as empty) |
| `EmitterProperties.OffCancelsOn` | src/emitter.ts:57-77 | for a known event, `off` right after `on` of the same listener has the same outcome as `off` alone |
| `EmitterProperties.OffCancelsOnce` | src/emitter.ts:57-77 | for a known event, `off` right after `once` of the same listener has the same outcome as `off` alone |
| `EmitterProperties.OffOfUnregistered` | src/emitter.ts:58-75 | `off` of a listener not registered for a known event does not throw and changes neither array nor the count |
| `EmitterProperties.OffOfUnregisteredIsIdentity` | src/emitter.ts:58-77 | when the event is present in both dictionaries and the listener is not registered, `off` returns `true` and the state is exactly unchanged |
| `EmitterProperties.OnOffRoundTrip` | src/emitter.ts:25-77 | with the event present in both dictionaries and the listener unregistered, `on` then `off` restores the exact state |
| `EmitterProperties.OffIdempotent` | src/emitter.ts:57-77 | after a successful `off`, a second `off` of the same listener does not throw and changes nothing |
| `EmitterProperties.EmitInvokesPersistentInOrder` | src/emitter.ts:101-103 | the first calls of an emission are the persistent listeners, each registration once, in registration order |
| `EmitterProperties.SyncOneShotFiresAgain` | src/emitter.ts:105-113 | with a synchronous (or no) first one-shot listener, `emit` changes no state and a second emission repeats exactly the same calls |
| `EmitterProperties.AsyncOneShotFiresOnce` | src/emitter.ts:105-113 | with an async first one-shot listener, the first emission calls them and deletes the entry; the second calls only the persistent listeners |
| `EmitterProperties.OneShotNeedsPersistentEntry` | src/emitter.ts:101 | without a persistent entry, `emit` calls nothing and the count is unchanged |
| `EmitterProperties.EmitCount` | src/emitter.ts:97-114 | `emit` lowers the count of the event by the one-shot array's length exactly when it deletes that array, and leaves every other event's count |
| `EmitterScenarios.EmitTwoSyncListeners` | test/emitter.spec.ts:37-61 | two synchronous listeners: count 2, and one emission calls the first then the second, both with the payload |
| `EmitterScenarios.EmitTwoAsyncListeners` | src/emitter.ts:126-127 | on the set-up of the async test (two async persistent listeners): count 2, both called in order, without the payload |
| `EmitterScenarios.AsyncListenersMissPayloadAsWritten` | src/emitter.ts:127 | on that set-up the first listener is not called with the payload, which the async test's listeners read |
| `EmitterScenarios.AsyncListenersGetPayloadWhenCorrected` | test/emitter.spec.ts:75-92 | with the corrected dispatch both async listeners are called in order, each with the payload, and a promise is returned |
| `EmitterScenarios.RemoveListenersOneByOne` | test/emitter.spec.ts:95-114 | removing two listeners one at a time takes the count from 2 to 1 to 0 |
| `EmitterScenarios.RemoveAllListenersClearsCounts` | test/emitter.spec.ts:116-139 | two listeners on "data" and two async listeners on "asyncData" give counts of 2 and 2; after `removeAllListeners` both are 0 |
| `EmitterScenarios.OneShotAloneIsNeverEmitted` | src/emitter.ts:101-105 | two async one-shot listeners with no persistent entry are never called and stay counted |
| `EmitterProperties.OffMaterialisesPersistentEntry` | src/emitter.ts:74-107 | on an event with only a one-shot entry `emit` calls nothing, but after any successful `off` the persistent key holds `[]` and `emit` calls the remaining one-shot listeners in order |
| `EmitterScenarios.OffUnblocksOneShot` | src/emitter.ts:74-107 | a lone async one-shot listener is not called; after `off` of an unrelated listener the same emission calls it, without the payload |

## Findings

| source | as written | input that shows it | evidently intended | confidence | as-written member | corrected member |
|---|---|---|---|---|---|---|
| src/emitter.ts:126-127 | the async path calls every listener as `listener()`, without the emitted data | two async listeners on `asyncData` that destructure `{ first }` from their argument (test/emitter.spec.ts:75-92): each is called with `undefined`, so the destructuring rejects before the listener sets its flag | every listener receives the data, as on the synchronous path (`listener(data)`) | not executed; the test file expects the data to arrive | `EmitterScenarios.AsyncListenersMissPayloadAsWritten` | `Dispatcher.DispatchWithData` |

`Emitter.Emit` keeps the code's dispatch (`Dispatcher.Dispatch`), since the
model describes the code as written; `Dispatcher.DispatchWithData` is the
drop-in corrected dispatch, and `Dispatcher.DispatchWithDataDiffersOnlyInArgument`
shows that it changes nothing but the argument on the async path.

## Left out

- Emitter.Emit: the deletion of the one-shot entry happens in a promise continuation
  (`.then`/`.catch`) in the code; the model applies it as soon as `emit`
  returns. Event-loop timing, listeners registered before the continuation
  runs, and rejected promises are not modelled. As a consequence, the model's
  "async one-shot listeners fire once" (`EmitterProperties.AsyncOneShotFiresOnce`)
  does not cover a second `emit` issued before every async one-shot listener
  has settled: in the code that emission finds the entry still present and
  calls them again. Likewise `EmitterProperties.EmitCount` describes the
  count once the deletion has happened: in the code, `listenersCount` read
  right after `emit` still includes the async one-shot listeners until their
  promise settles.
- Emitter.ListenersCount: its contract states when the count is zero and a
  lower bound, not the sum of the two array lengths, because that sum is the
  function's own body; how each operation changes the count is stated exactly
  on `Emitter.On`, `Emitter.Once`, `Emitter.Off`, `Emitter.RemoveAllListeners`
  and `EmitterProperties.EmitCount`.
- `isAsync` (`src/utils.ts`) inspects `fn.constructor.name` at run time; the
  model replaces it with the `isAsync` field of each listener.
- The type-level declarations of `src/types.ts` have no run-time behaviour.
- Payload contents and what listeners do: the payload is an opaque type
  parameter and listeners are assumed not to throw, so the propagation of a
  synchronous listener's exception out of `emit` (which would skip the
  remaining listeners) is not modelled.
- Reentrancy: listeners calling `on`, `off` or `emit` during a dispatch.
- Event names that collide with `Object.prototype` members (such as
  `"toString"`): the source's plain-object dictionaries would see an inherited
  value for them; the model's maps start genuinely empty.
- The `protected` visibility of `emit` is a TypeScript access rule with no
  run-time effect; the model exposes `Emit` like the other operations.
- The JavaScript `Error` class thrown by `off`: the model returns
  `Emitter.UnknownEvent`, whose text is `Emitter.Message`.
