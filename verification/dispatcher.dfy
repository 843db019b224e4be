/** Dispatch of one listener stack (the protected `_emit` of src/emitter.ts).
    A dispatch is described by the calls it makes, in order, and by whether
    it hands a promise back to `emit`. */
module Dispatcher {
  import opened Listeners

  /** What a listener is called with: the emitted data on the synchronous
      path, nothing at all on the asynchronous path. */
  datatype Argument<D> = NoArgument | Payload(value: D)

  /** One invocation of a listener. */
  datatype Call<D> = Call(listener: Listener, arg: Argument<D>)

  /** The calls a dispatch made and whether it returned a promise
      (the synchronous path returns `undefined`). */
  datatype Dispatched<D> = Dispatched(calls: seq<Call<D>>, returnsPromise: bool)

  /** The dispatch mode of a whole stack is the kind of its first listener.
      An empty stack has no first listener and takes the synchronous path. */
  predicate LeadIsAsync(stack: seq<Listener>)
  {
    |stack| > 0 && stack[0].isAsync
  }

  /** The argument every listener of `stack` is called with. */
  function ArgumentFor<D>(stack: seq<Listener>, data: D): Argument<D>
  {
    if LeadIsAsync(stack) then NoArgument else Payload(data)
  }

  /** Calls every listener of `stack` once, in order, with `arg`. */
  function CallEach<D>(stack: seq<Listener>, arg: Argument<D>): (calls: seq<Call<D>>)
    ensures |calls| == |stack|
    ensures forall i :: 0 <= i < |stack| ==> calls[i].listener == stack[i] && calls[i].arg == arg
    decreases |stack|
  {
    if stack == [] then []
    else [Call(stack[0], arg)] + CallEach(stack[1..], arg)
  }

  /** Every listener of the stack is called exactly once, in registration
      order. When the first listener is async, all of them are called without
      the data and a promise is returned; otherwise all of them are called with
      the data and nothing is returned, whatever the kind of the later ones. */
  function Dispatch<D>(stack: seq<Listener>, data: D): (r: Dispatched<D>)
    ensures r.returnsPromise <==> |stack| > 0 && stack[0].isAsync
    ensures |r.calls| == |stack|
    ensures forall i :: 0 <= i < |stack| ==> r.calls[i].listener == stack[i]
    ensures !r.returnsPromise ==> forall i :: 0 <= i < |stack| ==> r.calls[i].arg == Payload(data)
    ensures r.returnsPromise ==> forall i :: 0 <= i < |stack| ==> r.calls[i].arg == NoArgument
  {
    if LeadIsAsync(stack) then Dispatched(CallEach(stack, NoArgument), true)
    else Dispatched(CallEach(stack, Payload(data)), false)
  }

  /** The listeners a trace invoked, in invocation order. */
  function Callees<D>(calls: seq<Call<D>>): (ls: seq<Listener>)
    ensures |ls| == |calls|
    ensures forall i :: 0 <= i < |calls| ==> ls[i] == calls[i].listener
    decreases |calls|
  {
    if calls == [] then []
    else [calls[0].listener] + Callees(calls[1..])
  }

  /** A dispatch invokes exactly the listeners of the stack, each registered
      occurrence once, in registration order. */
  lemma DispatchInvokesStack<D>(stack: seq<Listener>, data: D)
    ensures Callees(Dispatch(stack, data).calls) == stack
  {
  }

  /** A synchronous first listener hides the kind of the later ones: an async
      listener further down is still called (with the data) but no promise
      comes back, so nothing waits for it. */
  lemma SyncLeadHidesAsyncTail<D>(stack: seq<Listener>, data: D, i: nat)
    requires 0 < i < |stack|
    requires !stack[0].isAsync && stack[i].isAsync
    ensures !Dispatch(stack, data).returnsPromise
    ensures Dispatch(stack, data).calls[i] == Call(stack[i], Payload(data))
  {
  }

  /** The dispatch the async path evidently intends: the same calls in the
      same order and the same promise decision as `Dispatch`, but every
      listener receives the emitted data, as the synchronous path already
      does. */
  function DispatchWithData<D>(stack: seq<Listener>, data: D): (r: Dispatched<D>)
    ensures r.returnsPromise <==> LeadIsAsync(stack)
    ensures |r.calls| == |stack|
    ensures forall i :: 0 <= i < |stack| ==> r.calls[i] == Call(stack[i], Payload(data))
  {
    Dispatched(CallEach(stack, Payload(data)), LeadIsAsync(stack))
  }

  /** The corrected dispatch differs from the one the code performs only in
      the argument: the same listeners are called in the same order and the
      same stacks return a promise; the arguments differ exactly on the async
      path of a non-empty stack. */
  lemma DispatchWithDataDiffersOnlyInArgument<D>(stack: seq<Listener>, data: D)
    ensures Callees(DispatchWithData(stack, data).calls) == Callees(Dispatch(stack, data).calls)
    ensures DispatchWithData(stack, data).returnsPromise == Dispatch(stack, data).returnsPromise
    ensures DispatchWithData(stack, data) == Dispatch(stack, data) <==> !LeadIsAsync(stack)
  {
    if LeadIsAsync(stack) {
      assert Dispatch(stack, data).calls[0].arg == NoArgument;
      assert DispatchWithData(stack, data).calls[0].arg == Payload(data);
    } else {
      assert DispatchWithData(stack, data).calls == Dispatch(stack, data).calls;
    }
  }
}
