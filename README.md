# binance_ema_ma: indicator toolkit, slope presets and the web front-end's feed pipeline

This project is a Dafny model of the core of a small trading bot for Binance
futures. The bot computes an EMA and an MA over a symbol's candlesticks
("klines"), signals golden and death crosses, and gates them on the strength
of the EMA's slope. A web front-end streams status snapshots to the browser.
The model covers three files:

- `indicators.py`: the pure indicator functions.
  - `sma` and `ema` over a list of closes.
  - `crossover`, which returns a golden/death `CrossSignal`.
  - `is_rising`.
  - `ema_slope`, in its `mean_diff` and `linreg` modes, with optional
    normalisation by the last EMA value.
  - `slope_ok`, the long/short slope gate.

  These are modelled as functions and lemmas in module `Indicators`. The loops
  of `sma` and `ema` are modelled as methods (`Indicators.Sma`,
  `Indicators.Ema`), each proved equal to a specification function.
- `slope.py`: the constant `PRESETS` table and `get_preset`, in module
  `SlopePresets`. A missing entry raises `KeyError`, which is modelled as an
  `Err`.
- `web_main.py`: the parts of the feed pipeline that hold state.
  - The `poller_stop` cell of `start_ws` and its socket callbacks, in module
    `Failover`. This is the fail-over between the exchange WebSocket and a
    fallback price poller.
  - The bounded events queue and its non-blocking publish, in module
    `Broadcast`.
  - The fallback poller's loop and the kline it synthesises, plus the start-up
    choice between the two pollers, in module `FallbackPoller`.

Python floats are modelled as `real`: there is no rounding. A list entry that
may be `None` is an `Option<real>`. Exceptions become a `Result`. Threads,
sleeping, the clock, the exchange client and the trading engine are not code
of this model. What they contribute becomes a parameter: a polled price, the
engine's bar times, the clock readings, whether the engine accepted a kline,
and the status snapshot.

Points where the code behaves differently from what its own documentation or
a reader might expect. The model follows the code in each case:

- Invalid sizes are not rejected up front.
  - `sma` with period 0 raises `ZeroDivisionError`, and only when there is input.
  - `sma` with a negative period returns a list of zeros.
  - `ema_slope` documents `lookback >= 2` (indicators.py:95). For a smaller
    lookback it returns `None` rather than raising.
- A full events queue drops the newest snapshot, not an older one:
  `put_nowait` raises `queue.Full` and the error is swallowed
  (`Broadcast.FullQueueDropsNewest`).
- The docstring of `start_ws` (web_main.py:39-42) says the polling fallback is
  closed again once the socket recovers. In the code, the stop never reaches
  the loop (see Findings). The model proves the behaviour as written, and
  proves the intended one-loop discipline for a corrected stop.
- Even a working stop would not be synchronous. The loop reads its flag only
  at the top of a pass (web_main.py:104), so a pass already under way still
  completes.

The modules are:

- `Wrappers`: `Option` and `Result`.
- `Indicators`.
- `SlopePresets`.
- `Failover`.
- `Broadcast`.
- `FallbackPoller`.

## Model

| member | source | states |
|---|---|---|
| Indicators.SmaSeries | indicators.py:11-23 | What `sma` returns: an error exactly for period 0 with input (`ZeroDivisionError`), otherwise a list as long as the input. For a positive period an entry is `None` exactly before index `period-1`. |
| Indicators.SmaWindowStep | indicators.py:15-18 | Appending a close and popping the oldest close of an over-full window gives the trailing window of at most `period` closes. The window is short exactly before index `period-1`. |
| Indicators.SmaEntryOfWindow | indicators.py:19-22 | The entry is `None` while the window is shorter than the period, and `sum(window)/period` once it is full. |
| Indicators.Sma | indicators.py:11-23 | The loop returns an equal-length list with `None` for the first `period-1` entries and the trailing mean afterwards. Period 0 with input raises `ZeroDivisionError`. A negative period gives zeros. |
| Indicators.SmaRollingUpdate | indicators.py:16-22 | Consecutive SMA values differ by (entering close − leaving close) / period. |
| Indicators.SmaWithinBounds | indicators.py:22 | For a positive period, every defined SMA value lies between any lower and upper bound of the closes. |
| Indicators.EmaSeries | indicators.py:26-53 | What `ema` returns: `ValueError` exactly for `period <= 0`, otherwise a list as long as the input whose entry is `None` exactly before index `period-1`. |
| Indicators.Alpha | indicators.py:36 | The smoothing factor `2/(period+1)` lies in (0, 1]. |
| Indicators.Ema | indicators.py:26-53 | `period <= 0` raises `ValueError`. Otherwise the list has `None` before index `period-1`, the seed at `period-1`, then the recurrence `v*k + prev*(1-k)`. The fallback to `v` is unreachable. |
| Indicators.EmaSeedIsSma | indicators.py:43-48 | The EMA seed equals the SMA at index `period-1`. |
| Indicators.EmaShortInputAllNone | indicators.py:38-42 | With fewer closes than the period, every EMA entry is `None`. |
| Indicators.EmaPrefixStable | indicators.py:49-52 | The EMA at index `i` depends only on the closes up to `i`, so recomputing over a longer list does not change earlier values. |
| Indicators.EmaWithinBounds | indicators.py:46-52 | The EMA is a convex combination of closes and stays within their bounds. |
| Indicators.Crossover | indicators.py:62-80 | Golden and death are never both set. Either one requires the last two entries of both lists to be defined. |
| Indicators.CrossoverReadsLastTwo | indicators.py:73-74 | Only the last two entries of each list decide the signal. |
| Indicators.CrossoverSwap | indicators.py:78-79 | Swapping the EMA and MA lists swaps the golden cross and the death cross. |
| Indicators.CrossoverExamples | indicators.py:65-66 | EMA 10→12 against MA 11→11 is golden only. EMA 11→9 against MA 10→10 is death only. |
| Indicators.PyTail | indicators.py:85 | `s[-lookback:]` is a suffix of `s`. For a positive lookback it has `min(lookback, len(s))` entries. |
| Indicators.Defined | indicators.py:85 | Filtering out `None` keeps every entry exactly when all entries are defined. |
| Indicators.FullTail | indicators.py:85-86 | A tail holding `lookback` defined values means the series has at least `lookback` entries and its last `lookback` are all defined. |
| Indicators.IsRising | indicators.py:83-88 | `is_rising`. For a positive lookback it holds only on a series with at least `lookback` entries. IsRisingMeansOrdered gives its full meaning. |
| Indicators.IsRisingMeansOrdered | indicators.py:83-88 | `is_rising` holds iff the tail has `lookback` defined values in non-decreasing order (both directions). For a positive lookback this forces the last `lookback` entries to be defined. |
| Indicators.DiffsTelescope | indicators.py:123 | The first differences sum to last − first. |
| Indicators.MeanDiffIsEndpointSlope | indicators.py:121-124 | The `mean_diff` slope equals (last − first) / (n − 1). |
| Indicators.SpreadPositive | indicators.py:114-118 | For `xs = 0, 1, …` with at least two points, `var_x > 0` around any mean, so the `var_x == 0` branch is dead. |
| Indicators.LinregDefined | indicators.py:110-120 | The `linreg` slope is defined for every window of two or more values. |
| Indicators.SumOnLine | indicators.py:114-115 | For points on a line `a + b*x`, `sum(ys) = n*a + b*sum(xs)`. |
| Indicators.MeanOnLine | indicators.py:114-115 | For points on a line, `mean_y = a + b*mean_x`. |
| Indicators.CrossDevOnLine | indicators.py:116-119 | For points on a line, with `mean_y` on the line at `mean_x`, `cov_xy = b * var_x`. |
| Indicators.OlsOnLine | indicators.py:116-120 | For points on a line whose xs start `0, 1`, with `mean_y` on the line at `mean_x`, the least-squares slope `cov_xy / var_x` is `b`. |
| Indicators.LinregOnLine | indicators.py:110-120 | On closes lying exactly on a line `a + b*i`, `linreg` returns the line's slope `b`. |
| Indicators.MeanDiffOnLine | indicators.py:121-124 | On closes lying exactly on a line `a + b*i`, `mean_diff` returns `b`, the same as `linreg`. |
| Indicators.RawSlopeMeanDiff | indicators.py:121-124 | Any mode string other than `"linreg"` takes the `mean_diff` branch, giving (last − first)/(n − 1). |
| Indicators.EmaSlope | indicators.py:91-128 | The definition of `ema_slope`, branch by branch: `None` for a lookback below 2 or a short tail, then `linreg` or `mean_diff`, then the normalisation. It carries no `ensures` of its own. Its properties are EmaSlopeDefinedIff, EmaSlopeMeanDiff and EmaSlopeLinreg. LinregOnLine is about LinregSlope, which the `linreg` branch calls. |
| Indicators.EmaSlopeDefinedIff | indicators.py:103-107 | `ema_slope` is not `None` iff `lookback >= 2` and the tail holds `lookback` defined values (both directions). |
| Indicators.EmaSlopeMeanDiff | indicators.py:121-127 | Outside `linreg`, the slope is (last − first)/(lookback − 1), divided by the last value when normalising and that value is non-zero. |
| Indicators.EmaSlopeLinreg | indicators.py:105-128 | In `linreg` mode with a full tail, the least-squares slope of the tail is defined, and the result is that slope, divided by the last value when normalising and that value is non-zero. |
| Indicators.LinregExample | indicators.py:110-127 | `linreg` over `[1, 2, 3]` is 1, and 1/3 when normalised. |
| Indicators.SlopeOk | indicators.py:131-150 | `long_ok` iff the slope is defined, at least `min_slope` and, in strict mode, the tail is strictly increasing. `short_ok` is the mirror. Both are false when the slope is `None`. They are never both true for a positive threshold. |
| Indicators.StrictLongImpliesRising | indicators.py:142-148 | A long signal in strict mode implies `is_rising` on the same lookback. |
| Indicators.StrictGateExample | indicators.py:142-149 | `[1, 3, 3, 5]` has slope 4/3, above 0.5, yet strict mode rejects it. |
| SlopePresets.NatToDecimalInjective | slope.py:146 | Different naturals have different decimal forms. |
| SlopePresets.IntToDecimalInjective | slope.py:146 | Different ints have different decimal forms. |
| SlopePresets.DecimalOfMaPeriods | slope.py:146 | 15, 20, 30 and 50 format as `"15"`, `"20"`, `"30"`, `"50"`. |
| SlopePresets.PresetKeyInjective | slope.py:146 | The key `"EMA5MA<n>"` determines `n`. |
| SlopePresets.PresetsDomain | slope.py:38-137 | The table has exactly the intervals 1m/5m/15m, each with exactly the four MA keys. |
| SlopePresets.GetPreset | slope.py:140-150 | `get_preset` succeeds only for one of the intervals 1m, 5m and 15m. GetPresetSucceedsIff gives the exact domain. |
| SlopePresets.GetPresetKnown | slope.py:140-148 | A known interval and MA period return the table entry under `"EMA5MA<period>"`. |
| SlopePresets.GetPresetOkIsKnown | slope.py:140-150 | A successful lookup implies a known interval and MA period. |
| SlopePresets.GetPresetSucceedsIff | slope.py:140-150 | `get_preset` succeeds iff the interval and the MA period are both known (both directions). |
| SlopePresets.GetPresetErrorMessage | slope.py:149-150 | Every other input raises `KeyError("No preset for interval=<i>, ma=<n>.")`. |
| SlopePresets.PresetShape | slope.py:42-133 | Every preset uses `linreg`, normalises and is not strict. Its lookback is 4 or 5: 5 exactly for MA 50 and for 15m with MA 30. |
| SlopePresets.PresetMinSlopeInDocumentedRange | slope.py:24-27 | Every preset's `min_slope` lies in the range the module documents for its interval. |
| SlopePresets.MinSlopeGrowsWithMaPeriod | slope.py:42-133 | Within an interval, a longer MA never gets a lower threshold. |
| SlopePresets.MinSlopeGrowsWithInterval | slope.py:42-133 | For each MA period, the threshold rises strictly from 1m to 5m to 15m. |
| SlopePresets.PresetSlopeDefinedIff | slope.py:42-133 | With any preset, `ema_slope` is defined iff the tail holds `lookback` defined values. |
| Failover.StopEvent.Set | web_main.py:101 | `Event.set()` raises the flag. |
| Failover.CountClearZero | web_main.py:104 | No loop runs iff every flag is set (both directions). |
| Failover.CountClearSetOne | web_main.py:104 | Setting one clear flag stops exactly one loop. |
| Failover.SetOneFlag | web_main.py:104 | `set()` on a recorded flag raises it, and one loop fewer runs. |
| Failover.StartPricePoller | web_main.py:96-138 | Returns a fresh, clear stop flag. |
| Failover.PollerSwitch.constructor | web_main.py:44 | The cell starts as `None`, with no loops. |
| Failover.PollerSwitch.StartPollerOnce | web_main.py:46-49 | With the cell empty and fail-over enabled, records a fresh loop: one more runs. Otherwise nothing changes. |
| Failover.PollerSwitch.RecordNewPoller | web_main.py:49 | Recording a new poller appends its clear flag, and one more loop runs. |
| Failover.PollerSwitch.StopPollerIfRunning | web_main.py:51-57 | As written: the cell is cleared, yet the number of running loops is unchanged. |
| Failover.PollerSwitch.OnOpen | web_main.py:72-74 | Clears the cell. No loop stops. |
| Failover.PollerSwitch.OnError | web_main.py:76-78 | Behaves as `start_poller_once`. |
| Failover.PollerSwitch.OnClose | web_main.py:80-82 | Behaves as `start_poller_once`. |
| Failover.PollerSwitch.Handle | web_main.py:72-82 | Any callback only appends loops, and every appended loop is running. |
| Failover.PollerSwitch.Dispatch | web_main.py:72-82 | For any sequence of callbacks, every loop ever started keeps running. A disabled switch never records a poller. |
| Failover.PollerSwitch.StopPollerBySet | web_main.py:51-57 | Corrected stop: sets the recorded flag, so one loop fewer runs, and single-flight is kept. |
| Failover.PollerSwitch.StopRecorded | web_main.py:52-57 | With a poller recorded, the corrected stop leaves one loop fewer and an empty cell. |
| Failover.PollerSwitch.OnOpenCorrected | web_main.py:72-74 | `on_open` with the corrected stop keeps single-flight and leaves no loop running. |
| Failover.PollerSwitch.HandleCorrected | web_main.py:72-82 | With the corrected stop, any callback keeps single-flight (a loop runs exactly while one is recorded) and adds only new loops. |
| Failover.PollerSwitch.DispatchCorrected | web_main.py:72-82 | With the corrected stop, for any sequence of callbacks, at most one fallback loop runs, and it is the recorded one. |
| Failover.AfterFirstError | web_main.py:76-78 | First error on a fresh switch: one recorded, running loop. |
| Failover.ErrorOpenErrorLeavesTwoLoops | web_main.py:51-57 | As written, error, open, error leaves two loops running. |
| Failover.ErrorOpenErrorCorrected | web_main.py:51-57 | With the corrected stop, the same sequence leaves exactly one loop, the recorded one. |
| Broadcast.EventQueue.constructor | web_main.py:279 | An empty queue with the given bound. |
| Broadcast.EventQueue.PutNowait | web_main.py:68 | Raises `Full` iff the bounded queue is full, leaving it unchanged. Otherwise appends at the back. The bound is kept. |
| Broadcast.NewEventsQueue | web_main.py:279 | The events queue has capacity 1000 and starts empty. |
| Broadcast.Offered | web_main.py:62-70 | Offering one snapshot keeps what is queued as a prefix and adds at most one item. OfferedShape states when it adds one: a snapshot exists and the queue is not full. |
| Broadcast.OfferedShape | web_main.py:62-70 | An offer keeps what is queued as a prefix and adds at most one item. It adds one exactly when a snapshot was built and the queue was not full. It keeps the bound. |
| Broadcast.Publish | web_main.py:62-70 | The publish step: offers the snapshot when there is a queue, swallowing both a failed snapshot and `Full`. |
| Broadcast.OfferedAllBounded | web_main.py:123-131 | Any run of offers keeps a bounded queue within its bound, with the earlier items in front, in order. |
| Broadcast.FullQueueDropsNewest | web_main.py:129-131 | Once the queue holds 1000 items, every further snapshot is dropped and the queued ones stay. |
| FallbackPoller.FallbackKline | web_main.py:108-120 | The kline is non-final, with a single price for open/high/low/close and zero volume. Its open and close time are the engine's last bar time (`timestamps[-1]`, whatever the order), or the first clock reading when there are no bars. Its event time is the second clock reading. |
| FallbackPoller.FallbackKlineStaysOnLastBar | web_main.py:107-120 | The kline is a well-formed bar. With bars, its close time is one of the engine's bar times, and when those are sorted it is at least every one of them, so it never opens a new bar. With no bars it uses the clock. |
| FallbackPoller.PollTick | web_main.py:105-133 | One pass hands the engine the fallback kline exactly when the price was fetched. The queue gets that pass's snapshot under the drop-newest rule. |
| FallbackPoller.RunPoller | web_main.py:103-134 | The loop over a finite run of passes. A set flag means nothing is delivered or queued. Otherwise every pass delivers its kline and offers its snapshot, and the queue stays bounded. |
| FallbackPoller.DeliveredAreFallbackBars | web_main.py:103-134 | Every delivered kline is a non-final zero-volume well-formed bar on the configured interval, at most one per pass. |
| FallbackPoller.PollerWiring | web_main.py:280-291 | The standalone poller runs iff `enable_price_poller` is present and truthy. The socket's fail-over is enabled exactly when it is not. |
| FallbackPoller.StartPollers | web_main.py:279-291 | Start-up creates an empty enabled/disabled switch, and a fresh clear standalone flag exactly when configured. |
| FallbackPoller.NeverBothPollers | web_main.py:280-291 | With the standalone poller configured, the socket's switch never holds a poller or a running loop. |

## Left out

- The Flask application and its server-sent-event stream (web_main.py:141-259) are not modelled. They consume the events queue, whose `get` side is therefore not modelled either.
- `load_config` (web_main.py:24-27) reads a file. It and the rest of `main` (web_main.py:262-297) other than the queue and the poller choice are not modelled. The configuration's `web` section is taken as an already-parsed JSON object. A `web` value that is not a dict is not modelled.
- `BinanceWebSocket`, `BinanceClient` and `TradingEngine` are foreign code. Their effects enter as parameters:
  - the callbacks that fire;
  - the polled price, or a failure;
  - the engine's bar times;
  - whether `on_realtime_kline` accepted the kline;
  - the status snapshot, or a failure while building it.
- `on_kline` (web_main.py:59-70) is modelled only through its publish step (`Broadcast.Publish`). Its call into the engine is foreign.
- Threads, `time.sleep(2)` and the daemon thread are not modelled. The poll loop runs over a finite sequence of passes, and the callbacks run in the order given.
- Concurrent access to the queue and to `poller_stop` is not modelled.
- `time.time()` becomes the two clock readings of a pass. Its conversion `int(time.time() * 1000)` is not modelled, because it is foreign code's value.
- The snapshot's extra fields (`recent_trades`, `recent_klines`, `server_time`) are part of the opaque snapshot value.
- Floating point is modelled as exact real arithmetic: no IEEE rounding, no negative zero, no infinities or NaN.
- `ema_slope` with `lookback=None` is not modelled. The lookback is an `int`.
- `to_jsonc_block` (slope.py:153-157) only serialises JSON text, so it is not modelled.
- The module's `__main__` demo is not modelled.
- The log line `print` at web_main.py:48 is not modelled, because it is output only. The default `enable_fallback_poller=True` at web_main.py:37 is not modelled either: the switch's constructor always takes the flag explicitly, and the only caller (web_main.py:288) passes it.
- Failover.PollerSwitch.Handle and Failover.PollerSwitch.Dispatch: their contracts state only that loops are appended and keep running, plus the disabled-switch case. The per-callback effect on the cell is stated by OnOpen, OnError and OnClose.
- FallbackPoller.RunPoller: the stop flag is read once, before the passes. Nothing in the modelled loop sets it, and a flag set from another thread mid-run is not modelled.

## Findings

| source | as written | input that shows it | evidently intended | confidence | as-written member | corrected member |
|---|---|---|---|---|---|---|
| web_main.py:54 | `stop_poller_if_running` calls the recorded handle. `start_price_poller` returns a `threading.Event`, which is not callable, so the call raises `TypeError`. The error is swallowed and the cell is cleared, so the poll loop is never told to stop. | Socket callbacks error, open, error: two fallback loops are then running, and one of them is no longer reachable. | Call `set()` on the recorded `Event` (or return a stop function), so that at most one fallback loop runs and `on_open` stops it. | not executed | Failover.ErrorOpenErrorLeavesTwoLoops, with Failover.PollerSwitch.StopPollerIfRunning | Failover.ErrorOpenErrorCorrected, with Failover.PollerSwitch.StopPollerBySet and Failover.PollerSwitch.DispatchCorrected |
