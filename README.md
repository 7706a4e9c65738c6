# Sink termination kernel and MaxBy reducer (Rx, C#)

This project models two pieces of a push-based stream library (Reactive
Extensions for .NET) in Dafny and proves properties about them:

- **`Sink<TSource>`**. It is the base class of every stateful query operator.
  It holds the downstream observer (`_observer`) and the upstream cancellation
  handle (`_cancel`). `Dispose` does three things:
  - it mutes the observer by storing the no-op sentinel observer in `_observer`;
  - it takes the handle in one exchange;
  - it releases the handle if the handle was still there.

  `GetForwarder` returns a nested observer that passes each call to the stored
  observer. That observer disposes the sink after `OnError` or `OnCompleted`.
- **The MaxBy reducer** (class `_` in `MaxBy.cs`). It is a per-subscription
  sink. It keeps a flag `_hasValue`, the leading key `_lastKey` and the list
  `_list` of elements whose key equals that key.
  - Each `OnNext` runs the user's key selector and comparer. Either one may
    throw.
  - `OnCompleted` emits the list once, completes and disposes.
  - `OnError` forwards the error and disposes.

Modules:

- `Notifications` (`notifications.dfy`) holds the shared values:
  - exceptions, and the `Result` of a call that may throw;
  - the three observer calls (`Next`, `Error`, `Completed`) and the observer
    grammar `OnNext* (OnError | OnCompleted)?`;
  - a recording `Observer` class, which stands for any downstream consumer;
  - a `Disposable` class that counts how often it is released.
- `Sinks` (`sink.dfy`) holds `Sink` and the forwarding observer, `Forwarder`.
  - The sentinel is the `Nop` case of `Downstream`, and it records nothing.
  - `Valid()` is the two-state machine. While the sink is live, it holds the
    real observer and the handle. Once it is disposed, it holds the sentinel,
    no handle, and a non-null handle has been released exactly once.
  - The sink owns its handle: `Valid()` assumes nothing but the sink ever
    releases it. A handle that is also disposed elsewhere breaks `Valid()`,
    although the C# `Dispose` would still run.
  - `Protocol()` adds the grammar. What the sink delivered is well formed, and
    a delivered terminal call means the sink is disposed.
- `MaxBySpec` (`max_by_spec.dfy`) is the pure specification:
  - `Step` is one `OnNext`, and `Fold` is a whole input, stopping at the first
    failure;
  - `Matching` is the independent reference: the elements whose key compares
    equal to a key `k`, in arrival order;
  - `IsMaxKey` says what a maximum key is;
  - `IsTotalPreorder` states the assumptions on the comparer.
- `MaxByOperator` (`max_by.dfy`) is the imperative reducer, class `MaxBySink`.
  - It has the fields of the C# class.
  - A ghost record, `received`, holds every element passed to `OnNext`.
  - `Valid()` ties the fields to `Fold(parent, received)`.
- `Scenarios` (`scenarios.dfy`) drives whole subscriptions call by call: ties,
  increasing keys, an empty source, a throwing key selector, and a forwarder
  used after completion.

In the C# source the reducer inherits from `Sink`. Here it owns its sink, so
`base._observer.X(...)` becomes `sink.Emit(...)` and `base.Dispose()` becomes
`sink.Dispose()`. The pair "terminal call, then `Dispose`" is written once, as
`Sink.Terminate`. The key selector and comparer are Dafny functions that return
a `Result`, so a thrown exception is an explicit `Failure`.

As in the source, an `OnNext` that arrives after a failure still updates the
reducer's fields. The sink is disposed by then, so nothing more reaches the
observer. `Valid()` therefore ties the fields to the fold only while the fold
has not failed.

## Model

| member | source | states |
|---|---|---|
| `Sinks.Sink.constructor` | System.Reactive.Core/Reactive/Internal/Sink.cs:20-24 | Construction stores the observer and the handle. The sink is live, it has delivered nothing, and it has released nothing. |
| `Sinks.Sink.Dispose` | System.Reactive.Core/Reactive/Internal/Sink.cs:27-39 | Afterwards the sentinel is stored and `_cancel` is null. The handle's release count grows by one on the first call and by zero on every later call. The observer's trace is unchanged, and the grammar is kept. |
| `Sinks.Sink.Released` | System.Reactive.Core/Reactive/Internal/Sink.cs:34-38 | Over the sink's whole life the handle is released at most once. It is released exactly once when the sink is disposed and the handle was non-null. |
| `Sinks.Sink.Emit` | System.Reactive.Core/Reactive/Internal/Sink.cs:17 | A call on the stored `_observer` reaches the real observer while the sink is live. After disposal the sentinel absorbs it and the trace is unchanged. The sink's own fields never change. |
| `Sinks.Sink.Terminate` | System.Reactive.Core/Reactive/Internal/Sink.cs:12 | A terminal call followed by `Dispose`. The observer gets the call unless the sink was already disposed. Afterwards the sink is disposed and the handle is released, and the grammar is kept. |
| `Sinks.Sink.GetForwarder` | System.Reactive.Core/Reactive/Internal/Sink.cs:43-46 | Returns a new forwarder over this sink. |
| `Sinks.Forwarder.constructor` | System.Reactive.Core/Reactive/Internal/Sink.cs:52-55 | The forwarder refers to the given sink. |
| `Sinks.Forwarder.OnNext` | System.Reactive.Core/Reactive/Internal/Sink.cs:58-61 | The value goes to the current observer and the sink is untouched: no dispose. After disposal the real observer's trace does not grow. |
| `Sinks.Forwarder.OnError` | System.Reactive.Core/Reactive/Internal/Sink.cs:63-67 | The error reaches the observer unless the sink was already disposed. The sink is then disposed and the handle released, and the grammar is kept. |
| `Sinks.Forwarder.OnCompleted` | System.Reactive.Core/Reactive/Internal/Sink.cs:69-73 | The completion reaches the observer unless the sink was already disposed. The sink is then disposed and the handle released, and the grammar is kept. |
| `Notifications.AppendToOpenTrace` | System.Reactive.Core/Reactive/Internal/Sink.cs:12 | Any call may follow a grammatical trace that has not ended. The trace has ended afterwards exactly when that call was terminal. |
| `MaxByOperator.MaxBySink.constructor` | System.Reactive.Linq/Reactive/Linq/Observable/MaxBy.cs:56-64 | Starts with no value and an empty list, over a new live sink that has delivered nothing and released nothing. |
| `MaxByOperator.MaxBySink.OnNext` | System.Reactive.Linq/Reactive/Linq/Observable/MaxBy.cs:66-111 | The cases of one element. A throwing key selector or comparer sends `OnError(ex)` and disposes, with the fields kept. The first element becomes the leader and the list is `[value]`. A strictly larger key replaces `_lastKey` and the list becomes `[value]`. An equal key appends behind the earlier elements. A smaller key changes nothing. Apart from a failure, the sink is untouched. |
| `MaxByOperator.MaxBySink.OnError` | System.Reactive.Linq/Reactive/Linq/Observable/MaxBy.cs:113-117 | Forwards the error and disposes. The list is never emitted. |
| `MaxByOperator.MaxBySink.OnCompleted` | System.Reactive.Linq/Reactive/Linq/Observable/MaxBy.cs:119-124 | Sends exactly `OnNext(list)` then `OnCompleted`, then disposes. The list is the fold of everything received. With keys that can be computed and a total-preorder comparer, it is every element whose key equals a maximum key, in arrival order, and it is empty for an empty input. |
| `MaxBySpec.StepFirst` | System.Reactive.Linq/Reactive/Linq/Observable/MaxBy.cs:80-86 | The first element counts as comparing equal. Its key becomes the leading key, and the state is the maximum of the one-element input. |
| `MaxBySpec.StepAbove` | System.Reactive.Linq/Reactive/Linq/Observable/MaxBy.cs:101-110 | After a strictly larger key, `[value]` is exactly the set of elements that equal the new maximum. |
| `MaxBySpec.StepNotAbove` | System.Reactive.Linq/Reactive/Linq/Observable/MaxBy.cs:101-110 | After an equal key the element is appended, and after a smaller key it is dropped. In both cases the state still summarizes the longer input. |
| `MaxBySpec.MatchingNoneAbove` | System.Reactive.Linq/Reactive/Linq/Observable/MaxBy.cs:101-105 | Nothing read before a strictly larger key matches it, which is why clearing the list is right. |
| `MaxBySpec.FoldFindsMaxBy` | System.Reactive.Linq/Reactive/Linq/Observable/MaxBy.cs:33-45 | The whole run, assuming keys can be computed and the comparer is a total preorder. The fold never fails, and it holds no value exactly for an empty input. Otherwise its key is a maximum key, and its list is the subsequence of elements whose key equals that key. |
| `MaxBySpec.MaxKeysAgree` | System.Reactive.Linq/Reactive/Linq/Observable/MaxBy.cs:33-45 | Any two maximum keys select the same subsequence, so "the elements with the maximum key" is well defined. |
| `MaxBySpec.EmitsElementsWithMaxKey` | System.Reactive.Linq/Reactive/Linq/Observable/MaxBy.cs:33-45 | For every maximum key `k`, the list emitted on completion equals the elements whose key equals `k`. It is empty for an empty input. |
| `MaxBySpec.MatchingMembers` | System.Reactive.Linq/Reactive/Linq/Observable/MaxBy.cs:33-45 | An element is in the selected subsequence if and only if it is in the input and its key equals `k`. |
| `MaxBySpec.FailureIsFinal` | System.Reactive.Linq/Reactive/Linq/Observable/MaxBy.cs:73-77 | Once the run has failed, later elements do not change its outcome. |
| `MaxBySpec.FailsAt` | System.Reactive.Linq/Reactive/Linq/Observable/MaxBy.cs:68-98 | If the selector or comparer throws on element `i` while the run is still going, that exception is the outcome of the whole run. |
| `Scenarios.Ties` | System.Reactive.Linq/Reactive/Linq/Observable/MaxBy.cs:101-110 | Input `(a,5) (b,9) (c,9) (d,3)` emits `[(b,9), (c,9)]` then completion, and the handle is released once. A second `Dispose` adds nothing. |
| `Scenarios.Increasing` | System.Reactive.Linq/Reactive/Linq/Observable/MaxBy.cs:101-110 | Input `(a,1) (b,2) (c,3)` emits `[(c,3)]` then completion. |
| `Scenarios.Empty` | System.Reactive.Linq/Reactive/Linq/Observable/MaxBy.cs:119-124 | An empty source emits `[]` then completion, and the handle is released once. |
| `Scenarios.SelectorFails` | System.Reactive.Linq/Reactive/Linq/Observable/MaxBy.cs:68-78 | The key selector throws on the third element. The observer receives exactly that error, the handle is released once, and the later `OnNext` and `OnCompleted` are absorbed. |
| `Scenarios.ForwardThenMute` | System.Reactive.Core/Reactive/Internal/Sink.cs:58-73 | Through a forwarder, `OnCompleted` disposes the sink. The later `OnNext` and `OnError` reach only the sentinel, the observer sees `[Next(1), Completed]`, and the handle is released once. |

## Left out

- Threads are not modelled: the `volatile` observer field and the atomicity of
  `Interlocked.Exchange` (Sink.cs:17, 34). Each `Dispose` is one sequential
  step. "At most one release" is proved for any sequence of calls, not for
  calls that interleave.
- `MaxBy.Run`, `Producer<>` and `SubscribeSafe` (MaxBy.cs:26-31) are
  subscription plumbing over classes that are not part of this model. The
  scenarios build the reducer and call it directly instead.
- The outer `MaxBy` class is only the holder of `_keySelector` and `_comparer`:
  the datatype `MaxBySpec.MaxBy`. Its `_source` is not modelled.
- `NopObserver<T>.Instance` is not part of this model. It is the `Nop` case of
  `Downstream`, which records nothing.
- Inheritance from `Sink` is modelled by composition. The reducer reaches its
  inherited `Dispose` as `sink.Dispose()`.
- Exceptions are explicit `Failure` values. An exception thrown by the
  downstream observer itself is not modelled, because the source does not
  handle one.
- `IComparer<TKey>` is a function that returns a `Result<int>`. The whole-run
  lemmas assume it is a total preorder and never throws. The per-call contract
  of `OnNext` assumes nothing about it.
- `default(TKey)`: the key type has a default value, and that value is never
  read before the first key is stored.
- `MaxByOperator.MaxBySink.OnCompleted` emits the list as a value. The source
  emits its own mutable `List<TSource>` object, so the aliasing between the
  emitted list and `_list` is not captured.
- `MaxByOperator.MaxBySink.OnCompleted` assumes the downstream observer never
  calls back into the sink, for example to dispose its subscription from inside
  its `OnNext` handler. The recording `Observer` cannot do that. In the source,
  `_observer` is read again for each call, so such a `Dispose` inside
  `OnNext(list)` makes the following `OnCompleted` reach the no-op observer. That
  consumer sees only `OnNext(list)`, while the model promises
  `[Next(list), Completed]`. The same holds for the forwarder and for every
  other method that makes two calls on the observer in a row.
- The `#if !NO_PERF` conditional compilation is not modelled.
