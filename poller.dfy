/** The fallback price poller of web_main.py (`start_price_poller` and its
    `run` loop) and the start-up choice between that poller and the
    socket's own fail-over. */
module FallbackPoller {
  import opened Wrappers
  import Broadcast
  import Failover

  /** The kline dictionary handed to the engine. Prices are `real`; times are
      milliseconds. */
  datatype Kline = Kline(
    eventTime: int,
    openTime: int,
    closeTime: int,
    interval: string,
    isFinal: bool,
    open: real,
    high: real,
    low: real,
    close: real,
    volume: real)

  /** A bar whose extremes bound its open and close, with a time span that does
      not run backwards and no negative volume. */
  predicate WellFormedBar(k: Kline)
  {
    && k.low <= k.open <= k.high
    && k.low <= k.close <= k.high
    && k.openTime <= k.closeTime
    && k.volume >= 0.0
  }

  /** The non-final kline the poller synthesises from one polled price. Its
      close time is the engine's last bar time, or the clock reading
      `clockAtClose` when the engine has no bars; `clockAtEvent` is the second
      clock reading, taken for `event_time`. */
  function FallbackKline(timestamps: seq<int>, clockAtClose: int, clockAtEvent: int,
                         price: real, interval: string): (k: Kline)
    ensures !k.isFinal && k.openTime == k.closeTime
    ensures k.open == price && k.high == price && k.low == price && k.close == price
    ensures k.volume == 0.0
    ensures k.eventTime == clockAtEvent && k.interval == interval
    ensures |timestamps| > 0 ==> k.closeTime == timestamps[|timestamps| - 1]
    ensures |timestamps| == 0 ==> k.closeTime == clockAtClose
  {
    var closeTime := if |timestamps| > 0 then timestamps[|timestamps| - 1] else clockAtClose;
    Kline(clockAtEvent, closeTime, closeTime, interval, false, price, price, price, price, 0.0)
  }

  /** A fallback kline is a well-formed zero-volume bar that sits on an
      existing bar time when the engine has any, so it never opens a new bar;
      with no bars it falls back to the clock. */
  lemma FallbackKlineStaysOnLastBar(timestamps: seq<int>, clockAtClose: int, clockAtEvent: int,
                                    price: real, interval: string)
    ensures var k := FallbackKline(timestamps, clockAtClose, clockAtEvent, price, interval);
      && WellFormedBar(k)
      && (|timestamps| > 0 ==> k.closeTime in timestamps)
      && (IsSorted(timestamps) ==> forall t :: t in timestamps ==> t <= k.closeTime)
      && (timestamps == [] ==> k.closeTime == clockAtClose)
  {
    var k := FallbackKline(timestamps, clockAtClose, clockAtEvent, price, interval);
    if IsSorted(timestamps) {
      forall t | t in timestamps
        ensures t <= k.closeTime
      {
        var i :| 0 <= i < |timestamps| && timestamps[i] == t;
        assert timestamps[i] <= timestamps[|timestamps| - 1];
      }
    }
  }

  /** Bar times in ascending order, as the engine stores them. */
  predicate IsSorted(s: seq<int>)
  {
    forall i, j :: 0 <= i <= j < |s| ==> s[i] <= s[j]
  }

  /** What one pass of the loop observes from the outside world: the polled
      price (`None` when `get_price` raised), the engine's bar times, the two
      clock readings, whether the engine accepted the kline, and the status
      snapshot (`None` when building it raised). */
  datatype Tick<T> = Tick(
    price: Option<real>,
    timestamps: seq<int>,
    clockAtClose: int,
    clockAtEvent: int,
    klineAccepted: bool,
    snapshot: Option<T>)

  /** The kline a pass hands to the engine, if the price could be fetched. */
  function TickKline<T>(interval: string, t: Tick<T>): Option<Kline>
  {
    if t.price.Some? then Some(FallbackKline(t.timestamps, t.clockAtClose, t.clockAtEvent, t.price.value, interval))
    else None
  }

  /** The snapshot a pass offers to the queue: only after a fetched price and
      an accepted kline; any failure before that ends the pass silently. */
  function TickSnapshot<T>(t: Tick<T>): Option<T>
  {
    if t.price.Some? && t.klineAccepted then t.snapshot else None
  }

  /** One pass of `run`: fetch, build the kline, hand it over, publish. */
  method PollTick<T>(q: Broadcast.EventQueue?<T>, interval: string, t: Tick<T>) returns (delivered: Option<Kline>)
    requires q != null ==> q.Valid()
    modifies q
    ensures delivered == TickKline(interval, t)
    ensures q != null ==> q.Valid() && q.items == Broadcast.Offered(old(q.items), q.maxsize, TickSnapshot(t))
  {
    match t.price {
      case None =>
        delivered := None;
      case Some(price) =>
        delivered := Some(FallbackKline(t.timestamps, t.clockAtClose, t.clockAtEvent, price, interval));
        if t.klineAccepted {
          Broadcast.Publish(q, t.snapshot);
        }
    }
  }

  /** Klines handed to the engine over a run of passes. */
  function Delivered<T>(interval: string, ticks: seq<Tick<T>>): seq<Kline>
    decreases |ticks|
  {
    if ticks == [] then []
    else
      var rest := Delivered(interval, ticks[..|ticks| - 1]);
      match TickKline(interval, ticks[|ticks| - 1])
      case None => rest
      case Some(k) => rest + [k]
  }

  /** Snapshots offered to the queue over a run of passes. */
  function Snapshots<T>(ticks: seq<Tick<T>>): (r: seq<Option<T>>)
    ensures |r| == |ticks|
    ensures forall i :: 0 <= i < |ticks| ==> r[i] == TickSnapshot(ticks[i])
  {
    seq(|ticks|, i requires 0 <= i < |ticks| => TickSnapshot(ticks[i]))
  }

  /** Offering one more snapshot extends a run of offers. */
  lemma {:induction false} OfferedAllSnoc<T>(items: seq<T>, maxsize: int, snapshots: seq<Option<T>>, s: Option<T>)
    ensures Broadcast.OfferedAll(items, maxsize, snapshots + [s])
         == Broadcast.Offered(Broadcast.OfferedAll(items, maxsize, snapshots), maxsize, s)
    decreases |snapshots|
  {
    if snapshots == [] {
      assert ([] + [s])[1..] == [];
    } else {
      assert (snapshots + [s])[1..] == snapshots[1..] + [s];
      OfferedAllSnoc(Broadcast.Offered(items, maxsize, snapshots[0]), maxsize, snapshots[1..], s);
    }
  }

  /** The `while not stop_flag.is_set()` loop over a finite run of passes; the
      two-second sleep between passes is not modelled. Only this loop's own
      flag could stop it, and nothing in the loop sets it. */
  method RunPoller<T>(stopFlag: Failover.StopEvent, q: Broadcast.EventQueue?<T>, interval: string,
                      ticks: seq<Tick<T>>) returns (delivered: seq<Kline>)
    requires q != null ==> q.Valid()
    modifies q
    ensures stopFlag.isSet ==> delivered == [] && (q != null ==> q.items == old(q.items))
    ensures !stopFlag.isSet ==> delivered == Delivered(interval, ticks)
    ensures q != null ==> q.Valid()
    ensures q != null && !stopFlag.isSet ==>
      q.items == Broadcast.OfferedAll(old(q.items), q.maxsize, Snapshots(ticks))
  {
    delivered := [];
    var i := 0;
    while i < |ticks| && !stopFlag.isSet
      invariant 0 <= i <= |ticks|
      invariant stopFlag.isSet ==> i == 0
      invariant delivered == Delivered(interval, ticks[..i])
      invariant q != null ==> q.Valid()
      invariant q != null ==> q.items == Broadcast.OfferedAll(old(q.items), q.maxsize, Snapshots(ticks[..i]))
    {
      var k := PollTick(q, interval, ticks[i]);
      assert ticks[..i + 1][..i] == ticks[..i];
      if q != null {
        assert Snapshots(ticks[..i + 1]) == Snapshots(ticks[..i]) + [TickSnapshot(ticks[i])];
        OfferedAllSnoc(old(q.items), q.maxsize, Snapshots(ticks[..i]), TickSnapshot(ticks[i]));
      }
      match k {
        case None =>
        case Some(kline) =>
          delivered := delivered + [kline];
      }
      i := i + 1;
    }
    assert ticks[..|ticks|] == ticks;
  }

  /** Every kline the poller delivers is a non-final, zero-volume, well-formed
      bar on the configured interval. */
  lemma {:induction false} DeliveredAreFallbackBars<T>(interval: string, ticks: seq<Tick<T>>)
    ensures |Delivered(interval, ticks)| <= |ticks|
    ensures forall k :: k in Delivered(interval, ticks) ==>
      !k.isFinal && k.volume == 0.0 && k.interval == interval && WellFormedBar(k)
    decreases |ticks|
  {
    if ticks != [] {
      DeliveredAreFallbackBars(interval, ticks[..|ticks| - 1]);
    }
  }

  // ---------------------------------------------------------------------------
  // Start-up wiring
  // ---------------------------------------------------------------------------

  /** A parsed JSON configuration value. */
  datatype Json =
    | JNull
    | JBool(b: bool)
    | JNum(n: real)
    | JStr(s: string)
    | JArray(items: seq<Json>)
    | JObject(members: map<string, Json>)

  /** Python's truth value of a parsed JSON value. */
  predicate Truthy(v: Json)
  {
    match v
    case JNull => false
    case JBool(b) => b
    case JNum(n) => n != 0.0
    case JStr(s) => s != ""
    case JArray(items) => items != []
    case JObject(members) => members != map[]
  }

  /** Which pollers start-up arms: the socket's fail-over poller, and the
      standalone poller started next to the socket. */
  datatype Wiring = Wiring(fallbackInSocket: bool, standalonePoller: bool)

  /** `enable_poller = bool(wcfg.get("enable_price_poller", False))`, with the
      socket's fail-over enabled exactly when the standalone poller is not. */
  function PollerWiring(web: map<string, Json>): (w: Wiring)
    ensures w.standalonePoller <==> "enable_price_poller" in web && Truthy(web["enable_price_poller"])
    ensures w.fallbackInSocket != w.standalonePoller
  {
    var enablePoller := if "enable_price_poller" in web then Truthy(web["enable_price_poller"]) else false;
    Wiring(!enablePoller, enablePoller)
  }

  /** The start-up steps of `main` that concern pollers: the socket's switch,
      and the standalone poller's stop flag when one is configured. */
  method StartPollers(web: map<string, Json>) returns (switch: Failover.PollerSwitch, standalone: Failover.StopEvent?)
    ensures fresh(switch) && switch.Valid() && switch.recorded == null && switch.LiveLoops() == 0
    ensures switch.enableFallbackPoller == PollerWiring(web).fallbackInSocket
    ensures (standalone != null) == PollerWiring(web).standalonePoller
    ensures standalone != null ==> fresh(standalone) && !standalone.isSet
  {
    var w := PollerWiring(web);
    switch := new Failover.PollerSwitch(w.fallbackInSocket);
    standalone := null;
    if w.standalonePoller {
      standalone := Failover.StartPricePoller();
    }
  }

  /** Configuration never runs both pollers: with the standalone poller on,
      the socket's switch is disabled and, by its invariant, never records a
      poller whatever the socket does. */
  lemma NeverBothPollers(web: map<string, Json>, switch: Failover.PollerSwitch)
    requires switch.Valid() && switch.enableFallbackPoller == PollerWiring(web).fallbackInSocket
    requires PollerWiring(web).standalonePoller
    ensures switch.recorded == null && switch.LiveLoops() == 0
  {
  }
}
