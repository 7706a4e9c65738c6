/** Whole subscriptions driven call by call, each ending in what the downstream
    observer saw and how often the upstream handle was released. */
module Scenarios {
  import opened Notifications
  import opened Sinks
  import opened MaxBySpec
  import opened MaxByOperator

  type Row = (char, int)

  /** Keys are the number in each row, compared in the natural order. */
  function ByNumber(): MaxBy<Row, int>
  {
    MaxBy((r: Row) => Success(r.1), (a: int, b: int) => Success(if a > b then 1 else if a == b then 0 else -1))
  }

  /** Like ByNumber, except that the key selector throws on a negative number. */
  function ByNonNegativeNumber(): MaxBy<Row, int>
  {
    MaxBy((r: Row) => if r.1 < 0 then Failure(Exception("negative key")) else Success(r.1),
          (a: int, b: int) => Success(if a > b then 1 else if a == b then 0 else -1))
  }

  /** Ties at the maximum are all kept, in arrival order, and a dispose after
      completion is absorbed. */
  method Ties() returns (trace: seq<Notification<seq<Row>>>, releases: nat)
    ensures trace == [Next([('b', 9), ('c', 9)]), Completed]
    ensures releases == 1
  {
    var observer := new Observer<seq<Row>>();
    var upstream := new Disposable();
    var r := new MaxBySink(ByNumber(), observer, upstream);
    r.OnNext(('a', 5));
    assert r.lastKey == 5 && r.list == [('a', 5)];
    r.OnNext(('b', 9));
    assert r.lastKey == 9 && r.list == [('b', 9)];
    r.OnNext(('c', 9));
    assert r.lastKey == 9 && r.list == [('b', 9), ('c', 9)];
    r.OnNext(('d', 3));
    assert r.list == [('b', 9), ('c', 9)] && observer.trace == [] && !r.sink.IsDisposed();
    r.OnCompleted();
    r.sink.Dispose();
    trace, releases := observer.trace, upstream.disposeCalls;
  }

  /** Strictly increasing keys: only the last element is emitted. */
  method Increasing() returns (trace: seq<Notification<seq<Row>>>, releases: nat)
    ensures trace == [Next([('c', 3)]), Completed]
    ensures releases == 1
  {
    var observer := new Observer<seq<Row>>();
    var upstream := new Disposable();
    var r := new MaxBySink(ByNumber(), observer, upstream);
    r.OnNext(('a', 1));
    r.OnNext(('b', 2));
    r.OnNext(('c', 3));
    r.OnCompleted();
    trace, releases := observer.trace, upstream.disposeCalls;
  }

  /** An empty source still emits one (empty) list before completing. */
  method Empty() returns (trace: seq<Notification<seq<Row>>>, releases: nat)
    ensures trace == [Next([]), Completed]
    ensures releases == 1
  {
    var observer := new Observer<seq<Row>>();
    var upstream := new Disposable();
    var r := new MaxBySink(ByNumber(), observer, upstream);
    r.OnCompleted();
    trace, releases := observer.trace, upstream.disposeCalls;
  }

  /** The key selector throws on the third element: the observer gets only that
      error, the handle is released once, and whatever follows is absorbed. */
  method SelectorFails() returns (trace: seq<Notification<seq<Row>>>, releases: nat)
    ensures trace == [Error(Exception("negative key"))]
    ensures releases == 1
  {
    var observer := new Observer<seq<Row>>();
    var upstream := new Disposable();
    var r := new MaxBySink(ByNonNegativeNumber(), observer, upstream);
    r.OnNext(('a', 1));
    r.OnNext(('b', 2));
    r.OnNext(('c', -1));
    r.OnNext(('d', 4));
    r.OnCompleted();
    trace, releases := observer.trace, upstream.disposeCalls;
  }

  /** Through a forwarder: OnCompleted disposes the sink, so the later OnNext and
      OnError reach only the sentinel, and the handle is released once. */
  method ForwardThenMute() returns (trace: seq<Notification<int>>, releases: nat)
    ensures trace == [Next(1), Completed]
    ensures releases == 1
  {
    var observer := new Observer<int>();
    var upstream := new Disposable();
    var sink := new Sink(observer, upstream);
    var f := sink.GetForwarder();
    f.OnNext(1);
    f.OnCompleted();
    f.OnNext(2);
    f.OnError(Exception("late"));
    sink.Dispose();
    trace, releases := observer.trace, upstream.disposeCalls;
  }
}
