/** The indicator toolkit of indicators.py: SMA and EMA over a list of closes, the
    golden/death crossover test, the rising test, the EMA slope and the slope gate.

    Python floats are modelled as `real` (no rounding); a list entry that may be
    Python's `None` is an `Option<real>`. */
module Indicators {
  import opened Wrappers

  /** The exceptions the indicator functions can raise. */
  datatype PyError = ValueError | ZeroDivisionError

  /** A Python `list[float]` whose entries may be `None`. */
  type Series = seq<Option<real>>

  /** A series with every entry defined. */
  function Values(xs: seq<real>): (s: Series)
    ensures |s| == |xs|
  {
    seq(|xs|, i requires 0 <= i < |xs| => Some(xs[i]))
  }

  // ---------------------------------------------------------------------------
  // Sums and means
  // ---------------------------------------------------------------------------

  /** Python's `sum` over a list of floats, adding from the left. */
  function Sum(s: seq<real>): real
  {
    if s == [] then 0.0 else Sum(s[..|s| - 1]) + s[|s| - 1]
  }

  /** The arithmetic mean `sum(s) / len(s)`. */
  function Mean(s: seq<real>): real
    requires s != []
  {
    Sum(s) / |s| as real
  }

  lemma {:induction false} SumCons(s: seq<real>)
    requires s != []
    ensures Sum(s) == s[0] + Sum(s[1..])
  {
    if |s| > 1 {
      SumCons(s[..|s| - 1]);
      assert s[..|s| - 1][1..] == s[1..][..|s| - 2];
    }
  }

  /** Every entry lies in [lo, hi], so the sum lies in [n*lo, n*hi]. */
  lemma {:induction false} SumBounds(s: seq<real>, lo: real, hi: real)
    requires forall j :: 0 <= j < |s| ==> lo <= s[j] <= hi
    ensures |s| as real * lo <= Sum(s) <= |s| as real * hi
  {
    if s != [] {
      var n := |s|;
      SumBounds(s[..n - 1], lo, hi);
      assert (n - 1) as real * lo + lo == n as real * lo;
      assert (n - 1) as real * hi + hi == n as real * hi;
    }
  }

  lemma MeanBounds(s: seq<real>, lo: real, hi: real)
    requires s != []
    requires forall j :: 0 <= j < |s| ==> lo <= s[j] <= hi
    ensures lo <= Mean(s) <= hi
  {
    SumBounds(s, lo, hi);
    var n := |s| as real;
    assert Sum(s) / n >= (n * lo) / n;
    assert Sum(s) / n <= (n * hi) / n;
  }

  lemma ScaleMono(x: real, y: real, c: real)
    requires x <= y && c >= 0.0
    ensures x * c <= y * c
  {
    assert y * c - x * c == (y - x) * c;
  }

  /** A convex combination of two values in [lo, hi] stays in [lo, hi]. */
  lemma ConvexBounds(x: real, y: real, k: real, lo: real, hi: real)
    requires lo <= x <= hi && lo <= y <= hi && 0.0 <= k <= 1.0
    ensures lo <= x * k + y * (1.0 - k) <= hi
  {
    MulNonneg(x - lo, k);
    MulNonneg(y - lo, 1.0 - k);
    MulNonneg(hi - x, k);
    MulNonneg(hi - y, 1.0 - k);
    assert x * k + y * (1.0 - k) - lo == (x - lo) * k + (y - lo) * (1.0 - k);
    assert hi - (x * k + y * (1.0 - k)) == (hi - x) * k + (hi - y) * (1.0 - k);
  }

  lemma MulNonneg(p: real, q: real)
    requires p >= 0.0 && q >= 0.0
    ensures p * q >= 0.0
  {
  }

  lemma DivideLinear(total: real, a: real, b: real, idx: real, n: real)
    requires n > 0.0 && total == n * a + b * idx
    ensures total / n == a + b * (idx / n)
  {
  }

  lemma QuotientOfMultiple(c: real, v: real, b: real)
    requires v != 0.0 && c == b * v
    ensures c / v == b
  {
  }

  // ---------------------------------------------------------------------------
  // sma
  // ---------------------------------------------------------------------------

  /** The value `sma` puts at index `i`. For a positive period it is `None` until
      `period` closes have been seen and then the mean of the trailing window
      `values[i-period+1..i]`. For a negative period the loop empties its window on
      every step, so every entry is `sum([]) / period`, that is 0. (A period of 0
      never produces an entry: the first division raises.) */
  function SmaEntry(values: seq<real>, period: int, i: int): Option<real>
    requires 0 <= i < |values|
  {
    if period <= 0 then Some(0.0)
    else if i + 1 < period then None
    else Some(Mean(values[i + 1 - period..i + 1]))
  }

  /** What `sma(values, period)` returns: an equal-length list of `SmaEntry`
      values, or ZeroDivisionError when the period is 0 and there is an input. */
  function SmaSeries(values: seq<real>, period: int): (r: Result<seq<Option<real>>, PyError>)
    ensures r.Err? <==> period == 0 && |values| > 0
    ensures r.Ok? ==> |r.value| == |values|
    ensures r.Ok? && period >= 1 ==>
      forall i :: 0 <= i < |values| ==> (r.value[i].None? <==> i < period - 1)
  {
    if period == 0 && |values| > 0 then Err(ZeroDivisionError)
    else Ok(seq(|values|, i requires 0 <= i < |values| => SmaEntry(values, period, i)))
  }

  /** The contents of `window` after the first `i` closes have been pushed. */
  function SmaWindow(values: seq<real>, period: int, i: int): seq<real>
    requires 0 <= i <= |values|
  {
    if period <= 0 then [] else values[(if i >= period then i - period else 0)..i]
  }

  /** Pushing close `i` and dropping the oldest close of an over-full window
      gives the window after `i + 1` closes; a positive period's window is full
      exactly from index `period - 1` on, and is then the trailing window. */
  lemma SmaWindowStep(values: seq<real>, period: int, i: int)
    requires 0 <= i < |values|
    ensures var w := SmaWindow(values, period, i) + [values[i]];
            (if |w| > period then w[1..] else w) == SmaWindow(values, period, i + 1)
    ensures period >= 1 ==> (|SmaWindow(values, period, i + 1)| < period <==> i + 1 < period)
    ensures period >= 1 && i + 1 >= period ==>
              SmaWindow(values, period, i + 1) == values[i + 1 - period..i + 1]
  {
    if period >= 1 {
      var lo := if i >= period then i - period else 0;
      assert SmaWindow(values, period, i) + [values[i]] == values[lo..i + 1];
    }
  }

  /** The entry at `i` is what the window after `i + 1` closes gives: `None`
      while it is short, its sum over the period once it is full. */
  lemma SmaEntryOfWindow(values: seq<real>, period: int, i: int)
    requires 0 <= i < |values| && period != 0
    ensures var w := SmaWindow(values, period, i + 1);
      && (|w| < period ==> SmaEntry(values, period, i) == None)
      && (|w| >= period ==> SmaEntry(values, period, i) == Some(Sum(w) / period as real))
  {
    SmaWindowStep(values, period, i);
  }

  /** `out` holds the first `|out|` entries of the SMA series. */
  predicate SmaPrefix(values: seq<real>, period: int, out: seq<Option<real>>)
  {
    |out| <= |values| && forall j :: 0 <= j < |out| ==> out[j] == SmaEntry(values, period, j)
  }

  lemma SmaPrefixSnoc(values: seq<real>, period: int, out: seq<Option<real>>, entry: Option<real>)
    requires SmaPrefix(values, period, out) && |out| < |values|
    requires entry == SmaEntry(values, period, |out|)
    ensures SmaPrefix(values, period, out + [entry])
  {
  }

  lemma SmaPrefixFull(values: seq<real>, period: int, out: seq<Option<real>>)
    requires SmaPrefix(values, period, out) && |out| == |values|
    ensures out == seq(|values|, i requires 0 <= i < |values| => SmaEntry(values, period, i))
  {
  }

  /** `sma`: slide a window of at most `period` closes over `values`, appending a
      close and dropping the oldest one once the window is over-full. */
  method Sma(values: seq<real>, period: int) returns (r: Result<seq<Option<real>>, PyError>)
    ensures r == SmaSeries(values, period)
  {
    var out: seq<Option<real>> := [];
    var window: seq<real> := [];
    for i := 0 to |values|
      invariant |out| == i
      invariant window == SmaWindow(values, period, i)
      invariant period == 0 ==> i == 0
      invariant SmaPrefix(values, period, out)
    {
      SmaWindowStep(values, period, i);
      window := window + [values[i]];
      if |window| > period {
        window := window[1..];
      }
      var entry: Option<real>;
      if |window| < period {
        entry := None;
      } else {
        if period == 0 {
          return Err(ZeroDivisionError);
        }
        entry := Some(Sum(window) / period as real);
      }
      SmaEntryOfWindow(values, period, i);
      SmaPrefixSnoc(values, period, out, entry);
      out := out + [entry];
    }
    SmaPrefixFull(values, period, out);
    r := Ok(out);
  }

  /** Consecutive SMA values differ by the close that enters the window minus
      the close that leaves it, divided by the period. */
  lemma SmaRollingUpdate(values: seq<real>, period: int, i: int)
    requires 1 <= period <= i < |values|
    ensures SmaEntry(values, period, i).Some? && SmaEntry(values, period, i - 1).Some?
    ensures SmaEntry(values, period, i).value
         == SmaEntry(values, period, i - 1).value + (values[i] - values[i - period]) / period as real
  {
    var w := values[i - period..i + 1];
    SumCons(w);
    assert w[1..] == values[i + 1 - period..i + 1];
    assert w[..|w| - 1] == values[i - period..i];
  }

  /** For a positive period, every defined SMA value lies between any lower
      and upper bound of the closes. */
  lemma SmaWithinBounds(values: seq<real>, period: int, i: int, lo: real, hi: real)
    requires 1 <= period && 0 <= i < |values|
    requires forall j :: 0 <= j < |values| ==> lo <= values[j] <= hi
    ensures SmaEntry(values, period, i).Some? ==> lo <= SmaEntry(values, period, i).value <= hi
  {
    if i + 1 >= period {
      MeanBounds(values[i + 1 - period..i + 1], lo, hi);
    }
  }

  // ---------------------------------------------------------------------------
  // ema
  // ---------------------------------------------------------------------------

  /** The smoothing factor `k = 2 / (period + 1)`. */
  function Alpha(period: int): (k: real)
    requires period >= 1
    ensures 0.0 < k <= 1.0
  {
    2.0 / (period + 1) as real
  }

  /** The EMA at index `i >= period-1`: seeded with the mean of the first `period`
      closes, then `values[i]*k + ema[i-1]*(1-k)`. */
  function EmaValue(values: seq<real>, period: int, i: int): real
    requires 1 <= period && period - 1 <= i < |values|
    decreases i
  {
    if i == period - 1 then Mean(values[..period])
    else values[i] * Alpha(period) + EmaValue(values, period, i - 1) * (1.0 - Alpha(period))
  }

  function EmaEntry(values: seq<real>, period: int, i: int): Option<real>
    requires 1 <= period && 0 <= i < |values|
  {
    if i < period - 1 then None else Some(EmaValue(values, period, i))
  }

  /** What `ema(values, period)` returns: ValueError for a period that is not
      positive, otherwise an equal-length list of `EmaEntry` values. */
  function EmaSeries(values: seq<real>, period: int): (r: Result<seq<Option<real>>, PyError>)
    ensures r.Err? <==> period <= 0
    ensures r.Ok? ==> |r.value| == |values|
    ensures r.Ok? ==> forall i :: 0 <= i < |values| ==> (r.value[i].None? <==> i < period - 1)
  {
    if period <= 0 then Err(ValueError)
    else Ok(seq(|values|, i requires 0 <= i < |values| => EmaEntry(values, period, i)))
  }

  /** `ema`: one pass over the closes, threading the previous EMA value. */
  method Ema(values: seq<real>, period: int) returns (r: Result<seq<Option<real>>, PyError>)
    ensures r == EmaSeries(values, period)
  {
    if period <= 0 {
      return Err(ValueError);
    }
    var out: seq<Option<real>> := [];
    var k := Alpha(period);
    var emaPrev: Option<real> := None;
    for i := 0 to |values|
      invariant |out| == i
      invariant forall j :: 0 <= j < i ==> out[j] == EmaEntry(values, period, j)
      invariant emaPrev == if i >= period then Some(EmaValue(values, period, i - 1)) else None
    {
      var v := values[i];
      if i < period - 1 {
        out := out + [None];
      } else if i == period - 1 {
        emaPrev := Some(Mean(values[..period]));
        assert emaPrev == EmaEntry(values, period, i);
        out := out + [emaPrev];
      } else {
        var prev := if emaPrev.Some? then emaPrev.value else v;
        var emaCurr := v * k + prev * (1.0 - k);
        assert emaCurr == EmaValue(values, period, i);
        emaPrev := Some(emaCurr);
        out := out + [emaPrev];
      }
    }
    assert out == seq(|values|, i requires 0 <= i < |values| => EmaEntry(values, period, i));
    r := Ok(out);
  }

  /** The EMA seed at index `period-1` is the SMA there. */
  lemma EmaSeedIsSma(values: seq<real>, period: int)
    requires 1 <= period <= |values|
    ensures EmaEntry(values, period, period - 1) == SmaEntry(values, period, period - 1)
  {
    assert values[..period] == values[0..period];
  }

  /** With fewer closes than the period, every EMA entry is `None`. */
  lemma EmaShortInputAllNone(values: seq<real>, period: int)
    requires 1 <= period && |values| < period
    ensures EmaSeries(values, period).Ok?
    ensures forall i :: 0 <= i < |values| ==> EmaSeries(values, period).value[i] == None
  {
  }

  /** Processing the closes one at a time gives the same EMA as recomputing over
      the whole list: the value at `i` depends only on `values[..i+1]`. */
  lemma {:induction false} EmaPrefixStable(values: seq<real>, period: int, n: int, i: int)
    requires 1 <= period && period - 1 <= i < n <= |values|
    ensures EmaValue(values[..n], period, i) == EmaValue(values, period, i)
    decreases i
  {
    if i == period - 1 {
      assert values[..n][..period] == values[..period];
    } else {
      EmaPrefixStable(values, period, n, i - 1);
    }
  }

  /** The EMA is a convex combination of closes, so it stays within their range. */
  lemma {:induction false} EmaWithinBounds(values: seq<real>, period: int, i: int, lo: real, hi: real)
    requires 1 <= period && period - 1 <= i < |values|
    requires forall j :: 0 <= j < |values| ==> lo <= values[j] <= hi
    ensures lo <= EmaValue(values, period, i) <= hi
    decreases i
  {
    if i == period - 1 {
      MeanBounds(values[..period], lo, hi);
    } else {
      EmaWithinBounds(values, period, i - 1, lo, hi);
      var k := Alpha(period);
      var prev := EmaValue(values, period, i - 1);
      ConvexBounds(values[i], prev, k, lo, hi);
    }
  }

  // ---------------------------------------------------------------------------
  // crossover
  // ---------------------------------------------------------------------------

  datatype CrossSignal = CrossSignal(goldenCross: bool, deathCross: bool)

  /** The last two entries of `s` are defined. */
  predicate LastTwoDefined(s: Series)
  {
    |s| >= 2 && s[|s| - 2].Some? && s[|s| - 1].Some?
  }

  /** `crossover`: golden when the EMA goes from at-or-below the MA to above it,
      death when it goes from at-or-above to below; nothing when either list is
      empty or shorter than two, or one of the four values is `None`. */
  function Crossover(emaList: Series, maList: Series): (r: CrossSignal)
    ensures !(r.goldenCross && r.deathCross)
    ensures (r.goldenCross || r.deathCross) ==> LastTwoDefined(emaList) && LastTwoDefined(maList)
  {
    if |emaList| == 0 || |maList| == 0 then CrossSignal(false, false)
    else if |emaList| < 2 || |maList| < 2 then CrossSignal(false, false)
    else
      var prevEma, currEma := emaList[|emaList| - 2], emaList[|emaList| - 1];
      var prevMa, currMa := maList[|maList| - 2], maList[|maList| - 1];
      if prevEma.None? || currEma.None? || prevMa.None? || currMa.None? then CrossSignal(false, false)
      else
        var golden := prevEma.value <= prevMa.value && currEma.value > currMa.value;
        var death := prevEma.value >= prevMa.value && currEma.value < currMa.value;
        CrossSignal(golden, death)
  }

  /** Only the last two entries of each list matter. */
  lemma CrossoverReadsLastTwo(emaList: Series, maList: Series)
    requires |emaList| >= 2 && |maList| >= 2
    ensures Crossover(emaList, maList)
         == Crossover(emaList[|emaList| - 2..], maList[|maList| - 2..])
  {
  }

  /** Exchanging the two lists exchanges the golden and the death cross. */
  lemma CrossoverSwap(emaList: Series, maList: Series)
    ensures Crossover(emaList, maList).goldenCross == Crossover(maList, emaList).deathCross
    ensures Crossover(emaList, maList).deathCross == Crossover(maList, emaList).goldenCross
  {
  }

  /** EMA `[..., 10, 12]` against MA `[..., 11, 11]` is a golden cross, and EMA
      `[..., 11, 9]` against MA `[..., 10, 10]` a death cross. */
  lemma CrossoverExamples(ePrefix: Series, mPrefix: Series)
    ensures Crossover(ePrefix + [Some(10.0), Some(12.0)], mPrefix + [Some(11.0), Some(11.0)])
         == CrossSignal(true, false)
    ensures Crossover(ePrefix + [Some(11.0), Some(9.0)], mPrefix + [Some(10.0), Some(10.0)])
         == CrossSignal(false, true)
  {
    var e := ePrefix + [Some(10.0), Some(12.0)];
    var m := mPrefix + [Some(11.0), Some(11.0)];
    assert e[|e| - 2..] == [Some(10.0), Some(12.0)];
    assert m[|m| - 2..] == [Some(11.0), Some(11.0)];
    CrossoverReadsLastTwo(e, m);
    var e' := ePrefix + [Some(11.0), Some(9.0)];
    var m' := mPrefix + [Some(10.0), Some(10.0)];
    assert e'[|e'| - 2..] == [Some(11.0), Some(9.0)];
    assert m'[|m'| - 2..] == [Some(10.0), Some(10.0)];
    CrossoverReadsLastTwo(e', m');
  }

  // ---------------------------------------------------------------------------
  // The defined tail of a series
  // ---------------------------------------------------------------------------

  /** Python's `s[-lookback:]`: the last `lookback` entries for a positive
      `lookback`, the whole list for 0 (`s[-0:]` is `s[0:]`), and `s[-lookback:]`,
      which drops a prefix, for a negative one. */
  function PyTail<T>(s: seq<T>, lookback: int): (t: seq<T>)
    ensures |t| <= |s| && t == s[|s| - |t|..]
    ensures lookback > 0 ==> |t| == if lookback < |s| then lookback else |s|
  {
    if lookback > 0 then (if lookback < |s| then s[|s| - lookback..] else s)
    else if lookback == 0 then s
    else if -lookback < |s| then s[-lookback..]
    else []
  }

  /** `[v for v in s if v is not None]`. */
  function Defined(s: Series): (vals: seq<real>)
    ensures |vals| <= |s|
    ensures |vals| == |s| <==> forall j :: 0 <= j < |s| ==> s[j].Some?
  {
    if s == [] then []
    else
      assert forall j :: 1 <= j < |s| ==> s[j] == s[1..][j - 1];
      (if s[0].Some? then [s[0].value] else []) + Defined(s[1..])
  }

  lemma {:induction false} DefinedOfValues(xs: seq<real>)
    ensures Defined(Values(xs)) == xs
  {
    if xs != [] {
      DefinedOfValues(xs[1..]);
      assert Values(xs)[1..] == Values(xs[1..]);
    }
  }

  /** The defined values among the last `lookback` entries. */
  function TailValues(series: Series, lookback: int): seq<real>
  {
    Defined(PyTail(series, lookback))
  }

  /** When the tail holds `lookback` defined values, the series has at least
      `lookback` entries and its last `lookback` entries are all defined. */
  lemma FullTail(series: Series, lookback: int)
    requires lookback > 0 && |TailValues(series, lookback)| >= lookback
    ensures |series| >= lookback
    ensures forall j :: |series| - lookback <= j < |series| ==> series[j].Some?
    ensures |TailValues(series, lookback)| == lookback
  {
    var t := PyTail(series, lookback);
    assert |t| == lookback;
    var off := |series| - lookback;
    forall j | off <= j < |series|
      ensures series[j].Some?
    {
      assert t[j - off] == series[j];
    }
  }

  // ---------------------------------------------------------------------------
  // is_rising
  // ---------------------------------------------------------------------------

  predicate NonDecreasing(vals: seq<real>)
  {
    forall i :: 0 <= i < |vals| - 1 ==> vals[i] <= vals[i + 1]
  }

  predicate StrictlyIncreasing(vals: seq<real>)
  {
    forall i :: 0 <= i < |vals| - 1 ==> vals[i] < vals[i + 1]
  }

  predicate StrictlyDecreasing(vals: seq<real>)
  {
    forall i :: 0 <= i < |vals| - 1 ==> vals[i] > vals[i + 1]
  }

  /** `is_rising`: at least `lookback` defined values in the tail, each one at
      most the next. */
  predicate IsRising(series: Series, lookback: int := 3)
    ensures IsRising(series, lookback) && lookback > 0 ==> |series| >= lookback
  {
    var vals := TailValues(series, lookback);
    if |vals| < lookback then false else NonDecreasing(vals)
  }

  /** Adjacent steps that never go down give an ordered sequence. */
  lemma {:induction false} NonDecreasingOrdered(vals: seq<real>, i: int, j: int)
    requires NonDecreasing(vals) && 0 <= i <= j < |vals|
    ensures vals[i] <= vals[j]
    decreases j - i
  {
    if i < j {
      NonDecreasingOrdered(vals, i + 1, j);
    }
  }

  /** `is_rising` holds exactly when the tail has `lookback` defined values and
      they are in non-decreasing order; a positive `lookback` then also needs the
      last `lookback` entries of the series to be defined. */
  lemma IsRisingMeansOrdered(series: Series, lookback: int)
    ensures IsRising(series, lookback) <==>
      var vals := TailValues(series, lookback);
      |vals| >= lookback && forall i, j :: 0 <= i <= j < |vals| ==> vals[i] <= vals[j]
    ensures IsRising(series, lookback) && lookback > 0 ==>
      |series| >= lookback && forall j :: |series| - lookback <= j < |series| ==> series[j].Some?
  {
    var vals := TailValues(series, lookback);
    if |vals| >= lookback && NonDecreasing(vals) {
      forall i, j | 0 <= i <= j < |vals| ensures vals[i] <= vals[j] {
        NonDecreasingOrdered(vals, i, j);
      }
      if lookback > 0 {
        FullTail(series, lookback);
      }
    }
  }

  // ---------------------------------------------------------------------------
  // ema_slope
  // ---------------------------------------------------------------------------

  /** `[vals[i] - vals[i-1] for i in range(1, len(vals))]`. */
  function Diffs(vals: seq<real>): (d: seq<real>)
    ensures |d| == if |vals| < 2 then 0 else |vals| - 1
  {
    if |vals| < 2 then []
    else seq(|vals| - 1, i requires 0 <= i < |vals| - 1 => vals[i + 1] - vals[i])
  }

  /** The `mean_diff` slope: the mean of the first differences. */
  function MeanDiffSlope(vals: seq<real>): real
    requires |vals| >= 2
  {
    Sum(Diffs(vals)) / |Diffs(vals)| as real
  }

  /** The first differences telescope to last minus first. */
  lemma {:induction false} DiffsTelescope(vals: seq<real>)
    requires |vals| >= 1
    ensures Sum(Diffs(vals)) == vals[|vals| - 1] - vals[0]
  {
    var n := |vals|;
    if n >= 2 {
      DiffsTelescope(vals[..n - 1]);
      assert Diffs(vals)[..n - 2] == Diffs(vals[..n - 1]);
    }
  }

  /** The `mean_diff` slope is `(last - first) / (n - 1)`. */
  lemma MeanDiffIsEndpointSlope(vals: seq<real>)
    requires |vals| >= 2
    ensures MeanDiffSlope(vals) == (vals[|vals| - 1] - vals[0]) / (|vals| - 1) as real
  {
    DiffsTelescope(vals);
  }

  /** `list(range(n))`, as floats. */
  function Range(n: nat): (xs: seq<real>)
    ensures |xs| == n
    ensures forall i :: 0 <= i < n ==> xs[i] == i as real
  {
    seq(n, i requires 0 <= i < n => i as real)
  }

  /** The terms `(x - mean_x) ** 2` for `x` in `xs`. */
  function SqDevs(xs: seq<real>, meanX: real): (d: seq<real>)
    ensures |d| == |xs|
  {
    seq(|xs|, i requires 0 <= i < |xs| => (xs[i] - meanX) * (xs[i] - meanX))
  }

  /** The terms `(xs[i] - mean_x) * (vals[i] - mean_y)` for `i` in `range(n)`. */
  function CrossDevs(xs: seq<real>, ys: seq<real>, meanX: real, meanY: real): (d: seq<real>)
    requires |xs| == |ys|
    ensures |d| == |xs|
  {
    seq(|xs|, i requires 0 <= i < |xs| => (xs[i] - meanX) * (ys[i] - meanY))
  }

  /** The least-squares slope of `ys` against `xs` around the given means:
      `cov_xy / var_x`, or `None` when `var_x == 0`. */
  function OlsSlope(xs: seq<real>, ys: seq<real>, meanX: real, meanY: real): Option<real>
    requires |xs| == |ys|
  {
    Ratio(Sum(CrossDevs(xs, ys, meanX, meanY)), Sum(SqDevs(xs, meanX)))
  }

  /** `cov_xy / var_x`, or `None` when `var_x == 0`. */
  function Ratio(covXY: real, varX: real): Option<real>
  {
    if varX == 0.0 then None else Some(covXY / varX)
  }

  /** The `linreg` slope: least squares of `vals` against `xs = 0..n-1`, with
      `mean_x = sum(xs) / n` and `mean_y = sum(vals) / n`. */
  function LinregSlope(vals: seq<real>): Option<real>
    requires |vals| >= 1
  {
    var n := |vals|;
    var xs := Range(n);
    OlsSlope(xs, vals, Sum(xs) / n as real, Sum(vals) / n as real)
  }

  /** A sum of non-negative terms is at least its first two terms. */
  lemma {:induction false} SumAtLeastFirstTwo(s: seq<real>)
    requires |s| >= 2 && forall i :: 0 <= i < |s| ==> s[i] >= 0.0
    ensures Sum(s) >= s[0] + s[1]
  {
    var n := |s|;
    if n == 2 {
      assert s[..1][..0] == [];
      assert Sum(s[..1]) == s[0];
      assert Sum(s) == Sum(s[..1]) + s[1];
    } else {
      SumAtLeastFirstTwo(s[..n - 1]);
      assert s[n - 1] >= 0.0;
    }
  }

  lemma SquareNonneg(d: real)
    ensures d * d >= 0.0
  {
    if d < 0.0 {
      MulNonneg(-d, -d);
    } else {
      MulNonneg(d, d);
    }
  }

  /** Two or more x values `0, 1, ...` around any mean have a positive spread. */
  lemma SpreadPositive(xs: seq<real>, meanX: real)
    requires |xs| >= 2 && xs[0] == 0.0 && xs[1] == 1.0
    ensures Sum(SqDevs(xs, meanX)) > 0.0
  {
    var d := SqDevs(xs, meanX);
    forall i | 0 <= i < |d|
      ensures d[i] >= 0.0
    {
      SquareNonneg(xs[i] - meanX);
    }
    SumAtLeastFirstTwo(d);
    var p := 0.0 - meanX;
    var q := 1.0 - meanX;
    assert d[0] == p * p && d[1] == q * q;
    SquareNonneg(p);
    SquareNonneg(q);
    if meanX == 0.0 {
      assert q * q == 1.0;
    } else {
      MulNonneg(if p > 0.0 then p else -p, if p > 0.0 then p else -p);
      assert p * p > 0.0;
    }
  }

  /** Two or more points always have spread, so `linreg` is defined. */
  lemma LinregDefined(vals: seq<real>)
    requires |vals| >= 2
    ensures LinregSlope(vals).Some?
  {
    var n := |vals|;
    SpreadPositive(Range(n), Sum(Range(n)) / n as real);
  }

  /** Point `i` lies on the line `a + b*x`. */
  predicate OnLineAt(xs: seq<real>, ys: seq<real>, a: real, b: real, i: int)
    requires 0 <= i < |xs| && 0 <= i < |ys|
  {
    ys[i] == a + b * xs[i]
  }

  /** The points `(xs[i], ys[i])` lie on the line `a + b*x`. */
  predicate OnLine(xs: seq<real>, ys: seq<real>, a: real, b: real)
  {
    |xs| == |ys| && forall i :: 0 <= i < |xs| ==> OnLineAt(xs, ys, a, b, i)
  }

  /** Summing points on a line: `sum(ys) == n*a + b*sum(xs)`. */
  lemma {:induction false} SumOnLine(xs: seq<real>, ys: seq<real>, a: real, b: real)
    requires OnLine(xs, ys, a, b)
    ensures Sum(ys) == |ys| as real * a + b * Sum(xs)
  {
    var n := |ys|;
    if n > 0 {
      var xs', ys' := xs[..n - 1], ys[..n - 1];
      assert OnLine(xs', ys', a, b) by {
        forall i | 0 <= i < n - 1
          ensures OnLineAt(xs', ys', a, b, i)
        {
          assert OnLineAt(xs, ys, a, b, i);
        }
      }
      SumOnLine(xs', ys', a, b);
      assert OnLineAt(xs, ys, a, b, n - 1);
      assert Sum(ys) == Sum(ys') + ys[n - 1];
      assert Sum(xs) == Sum(xs') + xs[n - 1];
      SumStepOnLine(a, b, |ys'| as real, |ys| as real, Sum(ys'), Sum(xs'), xs[n - 1], ys[n - 1],
                    Sum(ys), Sum(xs));
    }
  }

  /** One step of `SumOnLine`, on plain numbers. */
  lemma SumStepOnLine(a: real, b: real, k: real, n: real, sy: real, sx: real, x: real, y: real,
                      syNext: real, sxNext: real)
    requires n == k + 1.0 && sy == k * a + b * sx && y == a + b * x
    requires syNext == sy + y && sxNext == sx + x
    ensures syNext == n * a + b * sxNext
  {
  }

  /** `u[i] == b * v[i]`. */
  predicate ScaledAt(u: seq<real>, v: seq<real>, b: real, i: int)
    requires 0 <= i < |u| && 0 <= i < |v|
  {
    u[i] == b * v[i]
  }

  /** Term by term `u[i] == b * v[i]`, so `sum(u) == b * sum(v)`. */
  lemma {:induction false} SumScaled(u: seq<real>, v: seq<real>, b: real)
    requires |u| == |v| && forall i :: 0 <= i < |u| ==> ScaledAt(u, v, b, i)
    ensures Sum(u) == b * Sum(v)
  {
    var n := |u|;
    if n > 0 {
      var u', v' := u[..n - 1], v[..n - 1];
      forall i | 0 <= i < n - 1
        ensures ScaledAt(u', v', b, i)
      {
        assert ScaledAt(u, v, b, i);
      }
      SumScaled(u', v', b);
      assert ScaledAt(u, v, b, n - 1);
      ScaledStep(b, Sum(u'), Sum(v'), u[n - 1], v[n - 1]);
    }
  }

  /** One step of `SumScaled`, on plain numbers. */
  lemma ScaledStep(b: real, su: real, sv: real, x: real, y: real)
    requires su == b * sv && x == b * y
    ensures su + x == b * (sv + y)
  {
  }

  /** With `y` on the line and the y mean on the line at the x mean, the cross
      term `c` is `b` times the square term `d`. */
  lemma CrossTermOnLine(a: real, b: real, x: real, y: real, meanX: real, meanY: real, c: real, d: real)
    requires y == a + b * x && meanY == a + b * meanX
    requires c == (x - meanX) * (y - meanY) && d == (x - meanX) * (x - meanX)
    ensures c == b * d
  {
    var e := x - meanX;
    assert y - meanY == b * e;
    assert e * (b * e) == b * (e * e);
  }

  /** `CrossTermOnLine` at point `i`. */
  lemma CrossDevAt(xs: seq<real>, ys: seq<real>, a: real, b: real, meanX: real, meanY: real, i: int)
    requires |xs| == |ys| && 0 <= i < |xs|
    requires ys[i] == a + b * xs[i] && meanY == a + b * meanX
    ensures ScaledAt(CrossDevs(xs, ys, meanX, meanY), SqDevs(xs, meanX), b, i)
  {
    CrossTermOnLine(a, b, xs[i], ys[i], meanX, meanY,
                    CrossDevs(xs, ys, meanX, meanY)[i], SqDevs(xs, meanX)[i]);
  }

  /** For points on a line and a y mean on the line at the x mean,
      `cov_xy == b * var_x`. */
  lemma CrossDevOnLine(xs: seq<real>, ys: seq<real>, a: real, b: real, meanX: real, meanY: real)
    requires OnLine(xs, ys, a, b) && meanY == a + b * meanX
    ensures Sum(CrossDevs(xs, ys, meanX, meanY)) == b * Sum(SqDevs(xs, meanX))
  {
    var c := CrossDevs(xs, ys, meanX, meanY);
    var d := SqDevs(xs, meanX);
    forall i | 0 <= i < |c|
      ensures ScaledAt(c, d, b, i)
    {
      assert OnLineAt(xs, ys, a, b, i);
      CrossDevAt(xs, ys, a, b, meanX, meanY, i);
    }
    SumScaled(c, d, b);
  }

  /** The mean of points on a line is the line at the mean x. */
  lemma MeanOnLine(xs: seq<real>, ys: seq<real>, a: real, b: real)
    requires OnLine(xs, ys, a, b) && |xs| >= 1
    ensures Sum(ys) / |ys| as real == a + b * (Sum(xs) / |ys| as real)
  {
    SumOnLine(xs, ys, a, b);
    DivideLinear(Sum(ys), a, b, Sum(xs), |ys| as real);
  }

  /** When `cov_xy == b * var_x` and `var_x > 0`, the least-squares slope is `b`. */
  lemma OlsOfScaled(xs: seq<real>, ys: seq<real>, meanX: real, meanY: real, b: real)
    requires |xs| == |ys|
    requires Sum(CrossDevs(xs, ys, meanX, meanY)) == b * Sum(SqDevs(xs, meanX))
    requires Sum(SqDevs(xs, meanX)) > 0.0
    ensures OlsSlope(xs, ys, meanX, meanY) == Some(b)
  {
    RatioOfMultiple(Sum(CrossDevs(xs, ys, meanX, meanY)), Sum(SqDevs(xs, meanX)), b);
  }

  lemma RatioOfMultiple(c: real, v: real, b: real)
    requires v != 0.0 && c == b * v
    ensures Ratio(c, v) == Some(b)
  {
    QuotientOfMultiple(c, v, b);
  }

  /** For points on a line and a mean of y that is the line at the mean of x,
      the least-squares slope is the line's slope. */
  lemma OlsOnLine(xs: seq<real>, ys: seq<real>, a: real, b: real, meanX: real, meanY: real)
    requires OnLine(xs, ys, a, b) && |xs| >= 2 && xs[0] == 0.0 && xs[1] == 1.0
    requires meanY == a + b * meanX
    ensures OlsSlope(xs, ys, meanX, meanY) == Some(b)
  {
    CrossDevOnLine(xs, ys, a, b, meanX, meanY);
    SpreadPositive(xs, meanX);
    OlsOfScaled(xs, ys, meanX, meanY, b);
  }

  /** On closes that lie exactly on a line `a + b*i`, `linreg` recovers the
      line's slope. */
  lemma LinregOnLine(vals: seq<real>, a: real, b: real)
    requires |vals| >= 2 && OnLine(Range(|vals|), vals, a, b)
    ensures LinregSlope(vals) == Some(b)
  {
    var n := |vals|;
    var xs := Range(n);
    MeanOnLine(xs, vals, a, b);
    OlsOnLine(xs, vals, a, b, Sum(xs) / n as real, Sum(vals) / n as real);
  }

  /** On closes that lie exactly on a line `a + b*i`, `mean_diff` recovers the
      line's slope. */
  lemma MeanDiffOnLine(vals: seq<real>, a: real, b: real)
    requires |vals| >= 2 && OnLine(Range(|vals|), vals, a, b)
    ensures MeanDiffSlope(vals) == b
  {
    var n := |vals|;
    var xs := Range(n);
    MeanDiffIsEndpointSlope(vals);
    assert OnLineAt(xs, vals, a, b, 0) && OnLineAt(xs, vals, a, b, n - 1);
    var k := (n - 1) as real;
    assert vals[n - 1] - vals[0] == b * k;
    QuotientOfMultiple(vals[n - 1] - vals[0], k, b);
  }

  /** `ema_slope`: `None` for `lookback < 2` or when the tail holds fewer than
      `lookback` defined values; otherwise the `linreg` slope when asked for and
      the `mean_diff` slope for every other mode string, divided by the last
      value when normalising and that value is not 0. */
  function EmaSlope(series: Series, lookback: int, mode: string := "mean_diff",
                    normalizeByEma: bool := true): Option<real>
  {
    if lookback < 2 then None
    else
      var vals := TailValues(series, lookback);
      if |vals| < lookback then None
      else
        match RawSlope(vals, mode)
        case None => None
        case Some(slope) => Some(Normalized(slope, vals[|vals| - 1], normalizeByEma))
  }

  /** The slope before normalisation: `linreg` when asked for, `mean_diff` for
      every other mode string. */
  function RawSlope(vals: seq<real>, mode: string): Option<real>
    requires |vals| >= 2
  {
    if mode == "linreg" then LinregSlope(vals) else Some(MeanDiffSlope(vals))
  }

  /** `slope / curr` when normalising and `curr` is not 0 (`curr` is truthy
      exactly when it is not 0). */
  function Normalized(slope: real, curr: real, normalizeByEma: bool): real
  {
    if normalizeByEma && curr != 0.0 then slope / curr else slope
  }

  /** Outside `linreg` mode the raw slope is `(last - first) / (n - 1)`. */
  lemma RawSlopeMeanDiff(vals: seq<real>, mode: string)
    requires |vals| >= 2 && mode != "linreg"
    ensures RawSlope(vals, mode) == Some((vals[|vals| - 1] - vals[0]) / (|vals| - 1) as real)
  {
    MeanDiffIsEndpointSlope(vals);
  }

  /** The slope is defined exactly when `lookback >= 2` and the tail holds
      `lookback` defined values. */
  lemma EmaSlopeDefinedIff(series: Series, lookback: int, mode: string, normalizeByEma: bool)
    ensures EmaSlope(series, lookback, mode, normalizeByEma).Some? <==>
            lookback >= 2 && |TailValues(series, lookback)| >= lookback
  {
    if lookback >= 2 && |TailValues(series, lookback)| >= lookback {
      LinregDefined(TailValues(series, lookback));
    }
  }

  /** In `mean_diff` mode, and for any mode string other than `"linreg"`, the
      slope is `(last - first) / (lookback - 1)`, divided by the last value when
      normalising and that value is not 0. */
  lemma EmaSlopeMeanDiff(series: Series, lookback: int, mode: string, normalizeByEma: bool)
    requires mode != "linreg" && lookback >= 2 && |TailValues(series, lookback)| >= lookback
    ensures
      var vals := TailValues(series, lookback);
      var last := vals[lookback - 1];
      var raw := (last - vals[0]) / (lookback - 1) as real;
      EmaSlope(series, lookback, mode, normalizeByEma)
        == Some(if normalizeByEma && last != 0.0 then raw / last else raw)
  {
    var vals := TailValues(series, lookback);
    FullTail(series, lookback);
    assert |vals| == lookback;
    var last := vals[lookback - 1];
    assert vals[|vals| - 1] == last;
    var slope := MeanDiffSlope(vals);
    assert RawSlope(vals, mode) == Some(slope);
    EmaSlopeFromRaw(series, lookback, mode, normalizeByEma, slope);
    NormalizedCases(slope, last, normalizeByEma);
    MeanDiffIsEndpointSlope(vals);
  }

  /** In `linreg` mode the slope is the least-squares slope of the tail,
      divided by the last value when normalising and that value is not 0. */
  lemma EmaSlopeLinreg(series: Series, lookback: int, normalizeByEma: bool)
    requires lookback >= 2 && |TailValues(series, lookback)| >= lookback
    ensures
      var vals := TailValues(series, lookback);
      var last := vals[lookback - 1];
      LinregSlope(vals).Some? &&
      EmaSlope(series, lookback, "linreg", normalizeByEma)
        == Some(var raw := LinregSlope(vals).value;
                if normalizeByEma && last != 0.0 then raw / last else raw)
  {
    var vals := TailValues(series, lookback);
    FullTail(series, lookback);
    assert |vals| == lookback;
    var last := vals[lookback - 1];
    assert vals[|vals| - 1] == last;
    LinregDefined(vals);
    var raw := LinregSlope(vals).value;
    assert RawSlope(vals, "linreg") == Some(raw);
    EmaSlopeFromRaw(series, lookback, "linreg", normalizeByEma, raw);
    NormalizedCases(raw, last, normalizeByEma);
  }

  lemma NormalizedCases(slope: real, curr: real, normalizeByEma: bool)
    ensures Normalized(slope, curr, normalizeByEma)
         == if normalizeByEma && curr != 0.0 then slope / curr else slope
  {
  }

  /** With a full tail, the slope is the raw slope of the tail, normalised. */
  lemma EmaSlopeFromRaw(series: Series, lookback: int, mode: string, normalizeByEma: bool, raw: real)
    requires lookback >= 2 && |TailValues(series, lookback)| >= lookback
    requires RawSlope(TailValues(series, lookback), mode) == Some(raw)
    ensures var vals := TailValues(series, lookback);
      EmaSlope(series, lookback, mode, normalizeByEma) == Some(Normalized(raw, vals[|vals| - 1], normalizeByEma))
  {
  }

  /** `linreg` over `[1, 2, 3]` with lookback 3 is 1, and 1/3 once normalised by
      the last value 3. */
  lemma LinregExample()
    ensures EmaSlope(Values([1.0, 2.0, 3.0]), 3, "linreg", false) == Some(1.0)
    ensures EmaSlope(Values([1.0, 2.0, 3.0]), 3, "linreg", true) == Some(1.0 / 3.0)
  {
    var s := Values([1.0, 2.0, 3.0]);
    assert PyTail(s, 3) == s;
    DefinedOfValues([1.0, 2.0, 3.0]);
    var xs := Range(3);
    assert OnLineAt(xs, [1.0, 2.0, 3.0], 1.0, 1.0, 0);
    assert OnLineAt(xs, [1.0, 2.0, 3.0], 1.0, 1.0, 1);
    assert OnLineAt(xs, [1.0, 2.0, 3.0], 1.0, 1.0, 2);
    LinregOnLine([1.0, 2.0, 3.0], 1.0, 1.0);
  }

  // ---------------------------------------------------------------------------
  // slope_ok
  // ---------------------------------------------------------------------------

  /** `slope_ok`, returning `(long_ok, short_ok)`. */
  function SlopeOk(series: Series, lookback: int, minSlope: real,
                   nameonly mode: string := "mean_diff",
                   nameonly normalizeByEma: bool := true,
                   nameonly strictMonotonic: bool := false): (r: (bool, bool))
    ensures EmaSlope(series, lookback, mode, normalizeByEma).None? ==> r == (false, false)
    ensures r.0 <==>
      var s := EmaSlope(series, lookback, mode, normalizeByEma);
      s.Some? && s.value >= minSlope
      && (strictMonotonic ==> StrictlyIncreasing(TailValues(series, lookback)))
    ensures r.1 <==>
      var s := EmaSlope(series, lookback, mode, normalizeByEma);
      s.Some? && s.value <= -minSlope
      && (strictMonotonic ==> StrictlyDecreasing(TailValues(series, lookback)))
    ensures minSlope > 0.0 ==> !(r.0 && r.1)
  {
    var s := EmaSlope(series, lookback, mode, normalizeByEma);
    if s.None? then (false, false)
    else
      var longOk := s.value >= minSlope;
      var shortOk := s.value <= -minSlope;
      if strictMonotonic then
        var vals := TailValues(series, lookback);
        if |vals| < lookback then (false, false)
        else (longOk && StrictlyIncreasing(vals), shortOk && StrictlyDecreasing(vals))
      else (longOk, shortOk)
  }

  /** In strict mode a long signal implies the series is rising. */
  lemma StrictLongImpliesRising(series: Series, lookback: int, minSlope: real,
                                mode: string, normalizeByEma: bool)
    requires SlopeOk(series, lookback, minSlope, mode := mode, normalizeByEma := normalizeByEma,
                     strictMonotonic := true).0
    ensures IsRising(series, lookback)
  {
    EmaSlopeDefinedIff(series, lookback, mode, normalizeByEma);
  }

  /** A window that clears the threshold but is not strictly monotonic is
      rejected in strict mode: `[1, 3, 3, 5]` has mean_diff slope 4/3. */
  lemma StrictGateExample()
    ensures EmaSlope(Values([1.0, 3.0, 3.0, 5.0]), 4, "mean_diff", false) == Some(4.0 / 3.0)
    ensures SlopeOk(Values([1.0, 3.0, 3.0, 5.0]), 4, 0.5, mode := "mean_diff",
                    normalizeByEma := false, strictMonotonic := true) == (false, false)
  {
    var xs := [1.0, 3.0, 3.0, 5.0];
    var s := Values(xs);
    assert PyTail(s, 4) == s;
    DefinedOfValues(xs);
    EmaSlopeMeanDiff(s, 4, "mean_diff", false);
    assert !StrictlyIncreasing(xs) by { assert !(xs[1] < xs[2]); }
  }
}
