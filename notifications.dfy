/** The two capabilities a sink sits between: the observer that receives
    notifications and the disposable that releases an upstream subscription.
    Exceptions raised by user callables are explicit values here. */
module Notifications {

  /** A failure: raised by a key selector or comparer, or sent by the upstream producer. */
  datatype Exception = Exception(message: string)

  /** The outcome of a call that may throw: the value it returned, or the exception it raised. */
  datatype Result<+T> = Success(value: T) | Failure(error: Exception)

  /** One call made on an observer: OnNext(value), OnError(error) or OnCompleted(). */
  datatype Notification<+T> = Next(value: T) | Error(error: Exception) | Completed
  {
    /** OnError and OnCompleted end a stream. */
    predicate IsTerminal() { !Next? }
  }

  /** The observer grammar `OnNext* (OnError | OnCompleted)?`: only the last call may be terminal. */
  predicate WellFormed<T>(t: seq<Notification<T>>)
  {
    forall i | 0 <= i < |t| - 1 :: t[i].Next?
  }

  /** The stream has ended: its last call was terminal. */
  predicate Terminated<T>(t: seq<Notification<T>>)
  {
    t != [] && t[|t| - 1].IsTerminal()
  }

  /** A well-formed trace that has not ended accepts any further call, and it has
      ended afterwards exactly when that call was terminal. */
  lemma AppendToOpenTrace<T>(t: seq<Notification<T>>, n: Notification<T>)
    requires WellFormed(t) && !Terminated(t)
    ensures WellFormed(t + [n])
    ensures Terminated(t + [n]) == n.IsTerminal()
  {
  }

  /** A downstream observer. It stands for whatever consumer is subscribed and
      records, in order, every call it receives. */
  class Observer<T> {
    var trace: seq<Notification<T>>

    constructor ()
      ensures trace == []
    {
      trace := [];
    }

    method OnNext(value: T)
      modifies this
      ensures trace == old(trace) + [Next(value)]
    {
      trace := trace + [Next(value)];
    }

    method OnError(error: Exception)
      modifies this
      ensures trace == old(trace) + [Error(error)]
    {
      trace := trace + [Error(error)];
    }

    method OnCompleted()
      modifies this
      ensures trace == old(trace) + [Completed]
    {
      trace := trace + [Completed];
    }
  }

  /** An upstream subscription handle. It counts how often it has been released. */
  class Disposable {
    var disposeCalls: nat

    constructor ()
      ensures disposeCalls == 0
    {
      disposeCalls := 0;
    }

    method Dispose()
      modifies this
      ensures disposeCalls == old(disposeCalls) + 1
    {
      disposeCalls := disposeCalls + 1;
    }
  }
}
