/** The status broadcast of web_main.py: a bounded `queue.Queue` shared with
    the page's event stream, fed by non-blocking puts whose failures are
    swallowed. */
module Broadcast {
  import opened Wrappers

  /** What `put_nowait` does: the item goes in, or `queue.Full` is raised. */
  datatype PutOutcome = Enqueued | QueueFull

  /** `queue.Queue(maxsize)`; a `maxsize` of zero or less means unbounded. */
  class EventQueue<T> {
    const maxsize: int
    /** The queued items, oldest first. */
    var items: seq<T>

    /** A bounded queue never holds more than its `maxsize`. */
    ghost predicate Valid()
      reads this
    {
      maxsize > 0 ==> |items| <= maxsize
    }

    /** `Queue.full()`. */
    predicate Full()
      reads this
    {
      0 < maxsize <= |items|
    }

    constructor (maxsize: int)
      ensures this.maxsize == maxsize && items == [] && Valid()
    {
      this.maxsize := maxsize;
      items := [];
    }

    /** `put_nowait(x)`: appends `x` at the back unless the queue is full, in
        which case it raises `Full` and leaves the queue as it was. */
    method PutNowait(x: T) returns (r: PutOutcome)
      requires Valid()
      modifies this
      ensures Valid()
      ensures r == QueueFull <==> old(Full())
      ensures r == Enqueued ==> items == old(items) + [x]
      ensures r == QueueFull ==> items == old(items)
    {
      if Full() {
        r := QueueFull;
      } else {
        items := items + [x];
        r := Enqueued;
      }
    }
  }

  /** `events_q = queue.Queue(maxsize=1000)`. */
  const EventsCapacity: int := 1000

  method NewEventsQueue<T>() returns (q: EventQueue<T>)
    ensures fresh(q) && q.maxsize == EventsCapacity && q.items == [] && q.Valid()
  {
    q := new EventQueue(EventsCapacity);
  }

  /** The queue contents after offering one snapshot to a queue holding `items`:
      `None` is a snapshot whose assembly raised, and a full queue drops the
      newcomer. */
  function Offered<T>(items: seq<T>, maxsize: int, snapshot: Option<T>): (after: seq<T>)
    ensures |items| <= |after| <= |items| + 1 && after[..|items|] == items
  {
    if snapshot.None? || 0 < maxsize <= |items| then items else items + [snapshot.value]
  }

  /** An offer never removes or reorders what is queued, adds at most the one
      snapshot, and keeps a bounded queue within its bound. */
  lemma OfferedShape<T>(items: seq<T>, maxsize: int, snapshot: Option<T>)
    ensures var after := Offered(items, maxsize, snapshot);
      && after[..|items|] == items
      && |items| <= |after| <= |items| + 1
      && (maxsize > 0 && |items| <= maxsize ==> |after| <= maxsize)
      && (|after| == |items| + 1 <==> snapshot.Some? && !(0 < maxsize <= |items|))
  {
  }

  /** The publish step of `on_kline` and of the poll loop: when there is a
      queue, the status snapshot is offered with `put_nowait`; a snapshot that
      could not be built and a full queue are both swallowed. */
  method Publish<T>(q: EventQueue?<T>, snapshot: Option<T>)
    requires q != null ==> q.Valid()
    modifies q
    ensures q != null ==> q.Valid() && q.items == Offered(old(q.items), q.maxsize, snapshot)
  {
    if q != null {
      match snapshot {
        case None =>
        case Some(s) =>
          // A `QueueFull` outcome is swallowed.
          var outcome := q.PutNowait(s);
      }
    }
  }

  /** The queue contents after a run of offers. */
  function OfferedAll<T>(items: seq<T>, maxsize: int, snapshots: seq<Option<T>>): seq<T>
    decreases |snapshots|
  {
    if snapshots == [] then items
    else OfferedAll(Offered(items, maxsize, snapshots[0]), maxsize, snapshots[1..])
  }

  /** However many snapshots are offered, a bounded queue stays within its
      bound, and what was queued before stays at the front in order. */
  lemma {:induction false} OfferedAllBounded<T>(items: seq<T>, maxsize: int, snapshots: seq<Option<T>>)
    requires maxsize > 0 && |items| <= maxsize
    ensures var after := OfferedAll(items, maxsize, snapshots);
      |items| <= |after| <= maxsize && after[..|items|] == items
    decreases |snapshots|
  {
    if snapshots != [] {
      var next := Offered(items, maxsize, snapshots[0]);
      OfferedShape(items, maxsize, snapshots[0]);
      OfferedAllBounded(next, maxsize, snapshots[1..]);
      var after := OfferedAll(next, maxsize, snapshots[1..]);
      assert after[..|items|] == after[..|next|][..|items|];
    }
  }

  /** Once the events queue is full, every further snapshot is dropped: the
      newest offers are the ones lost, not the queued ones. */
  lemma {:induction false} FullQueueDropsNewest<T>(items: seq<T>, snapshots: seq<Option<T>>)
    requires |items| == EventsCapacity
    ensures OfferedAll(items, EventsCapacity, snapshots) == items
    decreases |snapshots|
  {
    if snapshots != [] {
      FullQueueDropsNewest(items, snapshots[1..]);
    }
  }
}
