/** The per-subscription reducer of the MaxBy operator (class `_` in
    Reactive/Linq/Observable/MaxBy.cs). In the source it derives from Sink; here
    it owns its sink (`base.` becomes `sink.`). */
module MaxByOperator {
  import opened Notifications
  import opened Sinks
  import opened MaxBySpec

  class MaxBySink<S, K(0, !new)> {
    /** `_parent`: only its key selector and comparer are used. */
    const parent: MaxBy<S, K>
    const sink: Sink<seq<S>>
    var hasValue: bool
    var lastKey: K
    var list: seq<S>
    /** Every element upstream has passed to OnNext, in order. */
    ghost var received: seq<S>

    /** The fields seen as the pure fold's state. */
    function State(): Acc<S, K>
      reads this
    {
      if hasValue then HasValue(lastKey, list) else NoValue
    }

    /** The sink keeps the grammar, nothing is collected before the first key,
        and while the fold over everything received has not failed the fields are
        exactly its state; once it has failed, the sink is disposed. */
    ghost predicate Valid()
      reads this, sink, sink.observer0, sink.upstream
    {
      && sink.Protocol()
      && (!hasValue ==> list == [])
      && match Fold(parent, received)
         case Success(a) => a == State()
         case Failure(_) => sink.IsDisposed()
    }

    constructor (parent: MaxBy<S, K>, observer: Observer<seq<S>>, cancel: Disposable?)
      ensures Valid() && fresh(sink)
      ensures this.parent == parent && sink.observer0 == observer && sink.upstream == cancel
      ensures !hasValue && list == [] && received == []
      ensures !sink.IsDisposed() && sink.Delivered() == [] && sink.Released() == 0
    {
      this.parent := parent;
      sink := new Sink(observer, cancel);
      hasValue := false;
      list := [];
      received := [];
    }

    method OnNext(value: S)
      requires Valid()
      modifies this, sink, sink.observer0, sink.upstream
      ensures Valid() && received == old(received) + [value]
      // the key selector throws: OnError(ex) then Dispose; the state is kept
      ensures parent.keySelector(value).Failure? ==>
        && hasValue == old(hasValue) && lastKey == old(lastKey) && list == old(list)
        && sink.EndedWith([Error(parent.keySelector(value).error)])
      // the first element: its key leads and it is the only element collected
      ensures parent.keySelector(value).Success? && !old(hasValue) ==>
        && hasValue && lastKey == parent.keySelector(value).value && list == [value]
        && sink.Quiet()
      ensures parent.keySelector(value).Success? && old(hasValue) ==>
        var c := parent.comparer(parent.keySelector(value).value, old(lastKey));
        && hasValue
        // the comparer throws: OnError(ex) then Dispose; the state is kept
        && (c.Failure? ==>
              && lastKey == old(lastKey) && list == old(list)
              && sink.EndedWith([Error(c.error)]))
        // a strictly larger key replaces the leader and clears the list
        && (c.Success? && c.value > 0 ==>
              lastKey == parent.keySelector(value).value && list == [value] && sink.Quiet())
        // an equal key is appended behind the earlier ones
        && (c.Success? && c.value == 0 ==>
              lastKey == old(lastKey) && list == old(list) + [value] && sink.Quiet())
        // a smaller key changes nothing
        && (c.Success? && c.value < 0 ==>
              lastKey == old(lastKey) && list == old(list) && sink.Quiet())
    {
      received := received + [value];
      assert received[..|received| - 1] == old(received);
      var key: K;
      match parent.keySelector(value) {
        case Failure(ex) =>
          sink.Terminate(Error(ex));
          return;
        case Success(k) =>
          key := k;
      }
      var comparison := 0;
      if !hasValue {
        hasValue := true;
        lastKey := key;
      } else {
        match parent.comparer(key, lastKey) {
          case Failure(ex) =>
            sink.Terminate(Error(ex));
            return;
          case Success(c) =>
            comparison := c;
        }
      }
      if comparison > 0 {
        lastKey := key;
        list := [];
      }
      if comparison >= 0 {
        list := list + [value];
      }
    }

    /** Upstream failed: forward the error and dispose; the collected list is dropped. */
    method OnError(error: Exception)
      requires Valid()
      modifies this, sink, sink.observer0, sink.upstream
      ensures Valid() && unchanged(this)
      ensures sink.EndedWith([Error(error)])
      ensures sink.Released() == if sink.upstream == null then 0 else 1
    {
      sink.Terminate(Error(error));
    }

    /** Upstream completed: emit the list once, complete, dispose. What is emitted
        is the fold of everything received. */
    method OnCompleted()
      requires Valid()
      modifies this, sink, sink.observer0, sink.upstream
      ensures Valid() && unchanged(this)
      ensures sink.EndedWith([Next(list), Completed])
      ensures sink.Released() == if sink.upstream == null then 0 else 1
      ensures !old(sink.IsDisposed()) ==>
        Fold(parent, received).Success? && list == Fold(parent, received).value.List()
      // with keys that can be computed and a total-preorder comparer: the emitted
      // list is every element whose key equals a maximum key, in arrival order
      ensures !old(sink.IsDisposed()) && KeysDefined(parent, received) && IsTotalPreorder(parent.comparer) ==>
        && (received == [] ==> list == [])
        && forall k :: IsMaxKey(parent, received, k) ==> list == Matching(parent, received, k)
    {
      if KeysDefined(parent, received) && IsTotalPreorder(parent.comparer) {
        EmitsElementsWithMaxKey(parent, received, lastKey);
        forall k | IsMaxKey(parent, received, k)
          ensures Fold(parent, received).value.List() == Matching(parent, received, k)
        {
          EmitsElementsWithMaxKey(parent, received, k);
        }
      }
      ghost var before := sink.Delivered();
      sink.Emit(Next(list));
      if !old(sink.IsDisposed()) {
        AppendToOpenTrace(before, Next(list));
      }
      sink.Terminate(Completed);
    }
  }
}
