/** The WebSocket fail-over switch of `start_ws` in web_main.py: one cell that
    remembers the stop handle of the fallback price poller, and the socket
    callbacks that start and stop that poller.

    `start_price_poller` hands back the `threading.Event` its loop watches, but
    `stop_poller_if_running` calls that object as if it were a function. Calling
    an `Event` raises `TypeError`, which is swallowed, so no loop is ever told
    to stop. The model keeps the stop flag of every started loop and counts the
    loops still running. */
module Failover {

  /** A `threading.Event` as the poll loop sees it: a flag that starts clear. */
  class StopEvent {
    var isSet: bool

    constructor ()
      ensures !isSet
    {
      isSet := false;
    }

    /** `Event.set()`. */
    method Set()
      modifies this
      ensures isSet
    {
      isSet := true;
    }
  }

  /** `handle()` on an `Event` object: the object is not callable, so Python
      raises `TypeError` before anything runs. The method may modify nothing,
      so the flag keeps its value; the raised error itself is not modelled,
      since its only handler swallows it. */
  method CallAsFunction(handle: StopEvent)
  {
  }

  /** The current value of each stop flag, in order. */
  ghost function Flags(flags: seq<StopEvent>): (bs: seq<bool>)
    reads set e | e in flags
    ensures |bs| == |flags|
    ensures forall i {:trigger bs[i]} :: 0 <= i < |flags| ==> bs[i] == flags[i].isSet
  {
    if flags == [] then [] else Flags(flags[..|flags| - 1]) + [flags[|flags| - 1].isSet]
  }

  /** Flags that no step touched read the same as before. */
  twostate lemma FlagsUnchanged(flags: seq<StopEvent>)
    requires forall i :: 0 <= i < |flags| ==> unchanged(flags[i])
    ensures Flags(flags) == old(Flags(flags))
  {
  }

  /** Number of clear flags: loops that are still running. */
  function CountClear(bs: seq<bool>): (n: nat)
    ensures n <= |bs|
  {
    if bs == [] then 0 else CountClear(bs[..|bs| - 1]) + (if bs[|bs| - 1] then 0 else 1)
  }

  /** No loop runs exactly when every flag is set. */
  lemma {:induction false} CountClearZero(bs: seq<bool>)
    ensures CountClear(bs) == 0 <==> forall i :: 0 <= i < |bs| ==> bs[i]
  {
    if bs != [] {
      var last := |bs| - 1;
      CountClearZero(bs[..last]);
      assert forall i :: 0 <= i < last ==> bs[..last][i] == bs[i];
    }
  }

  /** Every flag is distinct: each started loop has its own `Event`. */
  ghost predicate Distinct(flags: seq<StopEvent>)
  {
    forall i, j :: 0 <= i < j < |flags| ==> flags[i] != flags[j]
  }

  /** A new flag keeps the list distinct. */
  lemma DistinctAppend(flags: seq<StopEvent>, e: StopEvent)
    requires Distinct(flags) && e !in flags
    ensures Distinct(flags + [e])
  {
  }

  /** Appending a clear flag adds one running loop. */
  lemma CountClearAppend(bs: seq<bool>, b: bool)
    ensures CountClear(bs + [b]) == CountClear(bs) + (if b then 0 else 1)
  {
    assert (bs + [b])[..|bs|] == bs;
  }

  /** Setting one clear flag removes exactly one running loop. */
  lemma {:induction false} CountClearSetOne(bs: seq<bool>, k: int)
    requires 0 <= k < |bs| && !bs[k]
    ensures CountClear(bs[k := true]) + 1 == CountClear(bs)
  {
    var last := |bs| - 1;
    assert bs[k := true][..last] == if k == last then bs[..last] else bs[..last][k := true];
    if k < last {
      CountClearSetOne(bs[..last], k);
    }
  }

  /** `set()` on one clear flag of a distinct list: exactly one loop fewer runs. */
  method SetOneFlag(ghost flags: seq<StopEvent>, e: StopEvent)
    requires Distinct(flags) && e in flags && !e.isSet
    modifies e
    ensures e.isSet
    ensures CountClear(Flags(flags)) + 1 == old(CountClear(Flags(flags)))
  {
    ghost var before := Flags(flags);
    ghost var k :| 0 <= k < |flags| && flags[k] == e;
    e.Set();
    assert Flags(flags) == before[k := true];
    CountClearSetOne(before, k);
  }

  /** `start_price_poller`: a fresh clear flag for a new loop (the thread
      itself is not modelled). */
  method StartPricePoller() returns (e: StopEvent)
    ensures fresh(e) && !e.isSet
  {
    e := new StopEvent();
  }

  /** The socket callbacks that touch the cell. */
  datatype SocketEvent = Open | Error | Close

  /** The `poller_stop` cell of one `start_ws` call. */
  class PollerSwitch {
    /** `enable_fallback_poller`, fixed for the life of the socket. */
    const enableFallbackPoller: bool
    /** `poller_stop["fn"]`: the handle of the running fallback poller, or null for `None`. */
    var recorded: StopEvent?
    /** The stop flags of every poller this cell has started, oldest first. */
    ghost var loops: seq<StopEvent>

    ghost predicate Valid()
      reads this, loops
    {
      && Distinct(loops)
      && (!enableFallbackPoller ==> recorded == null && loops == [])
      && (recorded != null ==> recorded in loops && !recorded.isSet)
    }

    /** Poll loops that are still running. */
    ghost function LiveLoops(): nat
      reads this, loops
    {
      CountClear(Flags(loops))
    }

    constructor (enableFallbackPoller: bool)
      ensures this.enableFallbackPoller == enableFallbackPoller
      ensures recorded == null && loops == []
      ensures Valid() && LiveLoops() == 0
    {
      this.enableFallbackPoller := enableFallbackPoller;
      recorded := null;
      loops := [];
    }

    /** `start_poller_once`: starts and records a poller only when none is
        recorded and fail-over is enabled; otherwise changes nothing. */
    method StartPollerOnce()
      requires Valid()
      modifies this
      ensures Valid()
      ensures old(recorded) == null && enableFallbackPoller ==>
        && recorded != null && fresh(recorded) && !recorded.isSet
        && loops == old(loops) + [recorded]
        && LiveLoops() == old(LiveLoops()) + 1
      ensures !(old(recorded) == null && enableFallbackPoller) ==>
        recorded == old(recorded) && loops == old(loops) && LiveLoops() == old(LiveLoops())
    {
      if recorded == null && enableFallbackPoller {
        RecordNewPoller();
      }
    }

    /** The branch of `start_poller_once` that starts a poller and records its
        handle: one more loop runs. */
    method RecordNewPoller()
      requires Valid() && recorded == null && enableFallbackPoller
      modifies this
      ensures Valid()
      ensures recorded != null && fresh(recorded) && !recorded.isSet
      ensures loops == old(loops) + [recorded]
      ensures LiveLoops() == old(LiveLoops()) + 1
    {
      ghost var before := Flags(loops);
      var e := StartPricePoller();
      DistinctAppend(loops, e);
      assert Flags(loops) == before;
      ghost var after := Flags(loops + [e]);
      assert after == before + [false];
      CountClearAppend(before, false);
      recorded := e;
      loops := loops + [e];
      assert Flags(loops) == after;
    }

    /** `stop_poller_if_running` as written: the recorded `Event` is called, the
        `TypeError` is swallowed, and the cell is cleared. No flag is set, so the
        number of running loops stays as it was. */
    method StopPollerIfRunning()
      requires Valid()
      modifies this
      ensures Valid()
      ensures recorded == null && loops == old(loops)
      ensures LiveLoops() == old(LiveLoops())
    {
      if recorded != null {
        CallAsFunction(recorded);
        recorded := null;
      }
      FlagsUnchanged(loops);
    }

    /** `on_open`: the socket is back, so stop the fallback poller. */
    method OnOpen()
      requires Valid()
      modifies this
      ensures Valid()
      ensures recorded == null && loops == old(loops)
      ensures LiveLoops() == old(LiveLoops())
    {
      StopPollerIfRunning();
    }

    /** `on_error`: the socket failed, so start the fallback poller once. */
    method OnError<E>(err: E)
      requires Valid()
      modifies this
      ensures Valid()
      ensures old(recorded) == null && enableFallbackPoller ==>
        recorded != null && fresh(recorded) && loops == old(loops) + [recorded]
        && LiveLoops() == old(LiveLoops()) + 1
      ensures !(old(recorded) == null && enableFallbackPoller) ==>
        recorded == old(recorded) && loops == old(loops) && LiveLoops() == old(LiveLoops())
    {
      StartPollerOnce();
    }

    /** `on_close`: the socket closed, so start the fallback poller once. */
    method OnClose()
      requires Valid()
      modifies this
      ensures Valid()
      ensures old(recorded) == null && enableFallbackPoller ==>
        recorded != null && fresh(recorded) && loops == old(loops) + [recorded]
        && LiveLoops() == old(LiveLoops()) + 1
      ensures !(old(recorded) == null && enableFallbackPoller) ==>
        recorded == old(recorded) && loops == old(loops) && LiveLoops() == old(LiveLoops())
    {
      StartPollerOnce();
    }

    /** One socket callback: `on_open` stops, `on_error` and `on_close` start.
        The started loops only ever grow, and each one keeps running. */
    method Handle(ev: SocketEvent)
      requires Valid()
      modifies this
      ensures Valid()
      ensures old(loops) <= loops
      ensures LiveLoops() == old(LiveLoops()) + (|loops| - |old(loops)|)
    {
      match ev {
        case Open => OnOpen();
        case Error => OnError("socket error");
        case Close => OnClose();
      }
    }

    /** The socket's callbacks fired in the order the events arrive. Whatever
        the order, a disabled switch never records a poller, and every loop the
        switch has started is still running: stops never take effect. */
    method Dispatch(events: seq<SocketEvent>)
      requires Valid()
      modifies this
      ensures Valid()
      ensures !enableFallbackPoller ==> recorded == null && LiveLoops() == 0
      ensures old(loops) <= loops
      ensures LiveLoops() == old(LiveLoops()) + (|loops| - |old(loops)|)
    {
      for i := 0 to |events|
        invariant Valid()
        invariant old(loops) <= loops
        invariant LiveLoops() == old(LiveLoops()) + (|loops| - |old(loops)|)
      {
        Handle(events[i]);
      }
    }

    /** The intended one-poller-at-most discipline: a loop runs exactly while
        one is recorded. */
    ghost predicate SingleFlight()
      reads this, loops
    {
      LiveLoops() == (if recorded == null then 0 else 1)
    }

    /** The stop the code evidently intends: `set()` the recorded flag, then
        clear the cell. The recorded loop is stopped, so no loop is live. */
    method StopPollerBySet()
      requires Valid()
      modifies this, recorded
      ensures Valid()
      ensures recorded == null && loops == old(loops)
      ensures old(recorded) != null ==> LiveLoops() == old(LiveLoops()) - 1
      ensures old(recorded) == null ==> LiveLoops() == old(LiveLoops())
      ensures old(SingleFlight()) ==> SingleFlight() && LiveLoops() == 0
    {
      if recorded != null {
        StopRecorded();
      }
    }

    /** The branch of the corrected stop that has a recorded poller: set its
        flag and clear the cell, so one loop fewer runs. */
    method StopRecorded()
      requires Valid() && recorded != null
      modifies this, recorded
      ensures Valid()
      ensures recorded == null && loops == old(loops)
      ensures LiveLoops() + 1 == old(LiveLoops())
    {
      SetOneFlag(loops, recorded);
      label mid:
      recorded := null;
      FlagsUnchanged@mid(loops);
    }

    /** `on_open` with the corrected stop. */
    method OnOpenCorrected()
      requires Valid()
      modifies this, recorded
      ensures Valid()
      ensures recorded == null && loops == old(loops)
      ensures old(SingleFlight()) ==> SingleFlight() && LiveLoops() == 0
    {
      StopPollerBySet();
    }

    /** One socket callback with the corrected stop. Single-flight is kept, and
        every loop added is a new one. */
    method HandleCorrected(ev: SocketEvent)
      requires Valid() && SingleFlight()
      modifies this, recorded
      ensures Valid() && SingleFlight()
      ensures forall e :: e in loops ==> e in old(loops) || fresh(e)
    {
      match ev {
        case Open => OnOpenCorrected();
        case Error => OnError("socket error");
        case Close => OnClose();
      }
    }

    /** The socket's callbacks with the corrected stop, in any order: at most
        one fallback loop ever runs, and it is the recorded one. */
    method DispatchCorrected(events: seq<SocketEvent>)
      requires Valid() && SingleFlight()
      modifies this, loops
      ensures Valid() && SingleFlight()
      ensures LiveLoops() <= 1
    {
      for i := 0 to |events|
        invariant Valid() && SingleFlight()
        invariant forall e :: e in loops ==> e in old(loops) || fresh(e)
      {
        HandleCorrected(events[i]);
      }
    }
  }

  /** A fresh fail-over switch after one socket error: one loop, recorded. */
  method AfterFirstError() returns (s: PollerSwitch)
    ensures fresh(s) && fresh(s.recorded) && s.enableFallbackPoller
    ensures s.Valid() && s.recorded != null && s.LiveLoops() == 1
  {
    s := new PollerSwitch(true);
    s.OnError("connection reset");
  }

  /** As written: error, open, error leaves two poll loops running, one of them
      no longer reachable through the cell. */
  method ErrorOpenErrorLeavesTwoLoops() returns (s: PollerSwitch)
    ensures s.Valid() && s.recorded != null
    ensures s.LiveLoops() == 2
  {
    s := AfterFirstError();
    s.OnOpen();
    s.OnError("connection reset");
  }

  /** With the corrected stop the same sequence leaves exactly one loop, the recorded one. */
  method ErrorOpenErrorCorrected() returns (s: PollerSwitch)
    ensures s.Valid() && s.recorded != null
    ensures s.SingleFlight() && s.LiveLoops() == 1
  {
    s := AfterFirstError();
    s.OnOpenCorrected();
    s.OnError("connection reset");
  }
}
