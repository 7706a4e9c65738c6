/** The termination kernel of every stateful operator (System.Reactive.Core,
    Reactive/Internal/Sink.cs). A sink holds the downstream observer and the
    upstream cancellation handle. Disposing it mutes the observer by swapping in
    a no-op sentinel, and releases the handle at most once. Each Dispose is one
    sequential step. */
module Sinks {
  import opened Notifications

  /** What the `_observer` field refers to: the real downstream observer, or the
      shared no-op sentinel (`NopObserver<T>.Instance`), which records nothing. */
  datatype Downstream<T> = Real(observer: Observer<T>) | Nop

  class Sink<T> {
    /** `_observer`: the observer that currently receives notifications. */
    var downstream: Downstream<T>
    /** `_cancel`: the upstream handle, or null once it has been taken by Dispose. */
    var cancel: Disposable?

    /** The real observer and the handle given to the constructor. */
    ghost const observer0: Observer<T>
    ghost const upstream: Disposable?
    /** What the observer had received, and how often the handle had been
        released, when the sink was built. */
    ghost const trace0: seq<Notification<T>>
    ghost const calls0: nat

    /** The two-state machine: live (real observer, handle held) or disposed
        (sentinel, handle taken and released exactly once). */
    ghost predicate Valid()
      reads this, observer0, upstream
    {
      && (downstream == Real(observer0) || downstream == Nop)
      && cancel == (if downstream.Nop? then null else upstream)
      && (upstream != null ==> upstream.disposeCalls == calls0 + if downstream.Nop? then 1 else 0)
      && trace0 <= observer0.trace
    }

    predicate IsDisposed()
      reads this
    {
      downstream.Nop?
    }

    /** The calls this sink has passed to the real observer. */
    ghost function Delivered(): seq<Notification<T>>
      reads this, observer0, upstream
      requires Valid()
    {
      observer0.trace[|trace0|..]
    }

    /** How often this sink has released the upstream handle: never more than once,
        and once exactly when it has been disposed and had a handle. */
    ghost function Released(): (r: nat)
      reads this, observer0, upstream
      requires Valid()
      ensures r <= 1
      ensures r == 1 <==> IsDisposed() && upstream != null
    {
      if upstream == null then 0 else upstream.disposeCalls - calls0
    }

    /** The message grammar the sink enforces on its observer: what it delivered
        is `OnNext* (OnError | OnCompleted)?`, and a terminal call has been
        paired with Dispose. */
    ghost predicate Protocol()
      reads this, observer0, upstream
    {
      Valid() && WellFormed(Delivered()) && (Terminated(Delivered()) ==> IsDisposed())
    }

    /** The sink did nothing observable between the two states. */
    twostate predicate Quiet()
      reads this, observer0, upstream
    {
      && unchanged(this)
      && observer0.trace == old(observer0.trace)
      && (upstream != null ==> upstream.disposeCalls == old(upstream.disposeCalls))
    }

    /** The sink is disposed and the real observer received `tail`, unless the sink
        was already disposed before, in which case the sentinel absorbed it. */
    twostate predicate EndedWith(new tail: seq<Notification<T>>)
      reads this, observer0, upstream
    {
      && IsDisposed()
      && observer0.trace == old(observer0.trace) + (if old(IsDisposed()) then [] else tail)
    }

    /** Construction only stores the observer and the handle. */
    constructor (observer: Observer<T>, cancel: Disposable?)
      ensures Valid() && Protocol() && !IsDisposed()
      ensures downstream == Real(observer) && this.cancel == cancel
      ensures observer0 == observer && upstream == cancel
      ensures Delivered() == [] && Released() == 0
    {
      downstream := Real(observer);
      this.cancel := cancel;
      observer0 := observer;
      upstream := cancel;
      trace0 := observer.trace;
      calls0 := if cancel == null then 0 else cancel.disposeCalls;
    }

    /** Swaps in the sentinel on every call, takes the handle (one atomic
        exchange) and releases it if it was still there. */
    method Dispose()
      requires Valid()
      modifies this, upstream
      ensures Valid() && IsDisposed() && cancel == null
      ensures observer0.trace == old(observer0.trace)
      ensures upstream != null ==>
        upstream.disposeCalls == old(upstream.disposeCalls) + if old(IsDisposed()) then 0 else 1
      ensures Released() == if upstream == null then 0 else 1
      ensures old(Protocol()) ==> Protocol()
    {
      downstream := Nop;
      var handle := cancel;
      cancel := null;
      if handle != null {
        handle.Dispose();
      }
    }

    /** `_observer.OnNext/OnError/OnCompleted(...)`: a call on whatever observer
        is stored now; the sentinel absorbs it. */
    method Emit(n: Notification<T>)
      requires Valid()
      modifies observer0
      ensures Valid() && unchanged(this)
      ensures observer0.trace == old(observer0.trace) + if IsDisposed() then [] else [n]
      ensures Delivered() == old(Delivered()) + if IsDisposed() then [] else [n]
    {
      ghost var before := observer0.trace;
      match downstream {
        case Real(o) =>
          match n {
            case Next(v) => o.OnNext(v);
            case Error(e) => o.OnError(e);
            case Completed => o.OnCompleted();
          }
          assert observer0.trace[|trace0|..] == before[|trace0|..] + [n];
        case Nop =>
      }
    }

    /** Sends a terminal call to the stored observer, then disposes: the pairing
        the class remarks ask of every sink. It keeps the grammar. */
    method Terminate(n: Notification<T>)
      requires Valid() && n.IsTerminal()
      modifies this, observer0, upstream
      ensures Valid() && EndedWith([n])
      ensures Released() == if upstream == null then 0 else 1
      ensures old(Protocol()) ==> Protocol()
    {
      ghost var before := Delivered();
      Emit(n);
      if old(Protocol()) && !old(IsDisposed()) {
        AppendToOpenTrace(before, n);
      }
      Dispose();
    }

    /** A fresh forwarding observer over this sink. */
    method GetForwarder() returns (f: Forwarder<T>)
      ensures fresh(f) && f.forward == this
    {
      f := new Forwarder(this);
    }
  }

  /** The nested observer `_` returned by GetForwarder: it reads the sink's
      current observer on every call and couples each terminal call to Dispose. */
  class Forwarder<T> {
    const forward: Sink<T>

    constructor (forward: Sink<T>)
      ensures this.forward == forward
    {
      this.forward := forward;
    }

    /** Passes the value on without disposing; after disposal the sentinel gets it. */
    method OnNext(value: T)
      requires forward.Protocol()
      modifies forward.observer0
      ensures forward.Protocol() && unchanged(forward)
      ensures forward.observer0.trace ==
        old(forward.observer0.trace) + if forward.IsDisposed() then [] else [Next(value)]
    {
      ghost var before := forward.Delivered();
      forward.Emit(Next(value));
      if !forward.IsDisposed() {
        AppendToOpenTrace(before, Next(value));
      }
    }

    method OnError(error: Exception)
      requires forward.Protocol()
      modifies forward, forward.observer0, forward.upstream
      ensures forward.Protocol() && forward.EndedWith([Error(error)])
      ensures forward.Released() == if forward.upstream == null then 0 else 1
    {
      forward.Terminate(Error(error));
    }

    method OnCompleted()
      requires forward.Protocol()
      modifies forward, forward.observer0, forward.upstream
      ensures forward.Protocol() && forward.EndedWith([Completed])
      ensures forward.Released() == if forward.upstream == null then 0 else 1
    {
      forward.Terminate(Completed);
    }
  }
}
