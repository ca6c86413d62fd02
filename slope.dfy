/** The slope presets of slope.py: a constant table indexed by chart interval and
    by the key `"EMA5MA" + <MA period>`, and the lookup that raises `KeyError`
    for a missing entry. */
module SlopePresets {
  import opened Wrappers
  import Indicators

  /** One preset: the keyword arguments of `slope_ok` for an interval and MA period. */
  datatype SlopeParams = SlopeParams(
    mode: string,
    lookback: int,
    normalizeByEma: bool,
    minSlope: real,
    strictMonotonic: bool)

  /** The `KeyError` raised by `get_preset`, with its message. */
  datatype KeyError = KeyError(message: string)

  /** `PRESETS`: interval -> "EMA5MA<period>" -> parameters. */
  const Presets: map<string, map<string, SlopeParams>> := map[
    "1m" := map[
      "EMA5MA15" := SlopeParams("linreg", 4, true, 0.00008, false),
      "EMA5MA20" := SlopeParams("linreg", 4, true, 0.00008, false),
      "EMA5MA30" := SlopeParams("linreg", 4, true, 0.00009, false),
      "EMA5MA50" := SlopeParams("linreg", 5, true, 0.00010, false)],
    "5m" := map[
      "EMA5MA15" := SlopeParams("linreg", 4, true, 0.00018, false),
      "EMA5MA20" := SlopeParams("linreg", 4, true, 0.00018, false),
      "EMA5MA30" := SlopeParams("linreg", 4, true, 0.00020, false),
      "EMA5MA50" := SlopeParams("linreg", 5, true, 0.00022, false)],
    "15m" := map[
      "EMA5MA15" := SlopeParams("linreg", 4, true, 0.00028, false),
      "EMA5MA20" := SlopeParams("linreg", 4, true, 0.00028, false),
      "EMA5MA30" := SlopeParams("linreg", 5, true, 0.00030, false),
      "EMA5MA50" := SlopeParams("linreg", 5, true, 0.00032, false)]]

  // ---------------------------------------------------------------------------
  // Decimal formatting of an int, as an f-string does it
  // ---------------------------------------------------------------------------

  function DigitChar(d: int): (c: char)
    requires 0 <= d < 10
    ensures '0' <= c <= '9'
  {
    "0123456789"[d]
  }

  /** The decimal digits of a natural number, without leading zeros. */
  function NatToDecimal(n: nat): (s: string)
    ensures |s| >= 1 && (n >= 10 ==> |s| >= 2)
    ensures forall i :: 0 <= i < |s| ==> '0' <= s[i] <= '9'
  {
    if n < 10 then [DigitChar(n)] else NatToDecimal(n / 10) + [DigitChar(n % 10)]
  }

  /** `f"{n}"` for an int: a minus sign before the digits of a negative number. */
  function IntToDecimal(n: int): string
  {
    if n < 0 then "-" + NatToDecimal(-n) else NatToDecimal(n)
  }

  lemma DigitCharInjective(d: int, e: int)
    requires 0 <= d < 10 && 0 <= e < 10 && DigitChar(d) == DigitChar(e)
    ensures d == e
  {
  }

  /** Different natural numbers have different decimal forms. */
  lemma {:induction false} NatToDecimalInjective(m: nat, n: nat)
    requires NatToDecimal(m) == NatToDecimal(n)
    ensures m == n
  {
    var s := NatToDecimal(m);
    if m < 10 && n < 10 {
      DigitCharInjective(m, n);
    } else if m >= 10 && n >= 10 {
      assert s[|s| - 1] == DigitChar(m % 10) == DigitChar(n % 10);
      DigitCharInjective(m % 10, n % 10);
      assert NatToDecimal(m / 10) == s[..|s| - 1] == NatToDecimal(n / 10);
      NatToDecimalInjective(m / 10, n / 10);
    }
  }

  /** The decimal form starts with a minus sign exactly for a negative number. */
  lemma IntToDecimalSign(n: int)
    ensures |IntToDecimal(n)| >= 1
    ensures IntToDecimal(n)[0] == '-' <==> n < 0
  {
  }

  /** Different ints have different decimal forms. */
  lemma IntToDecimalInjective(m: int, n: int)
    requires IntToDecimal(m) == IntToDecimal(n)
    ensures m == n
  {
    IntToDecimalSign(m);
    IntToDecimalSign(n);
    if m < 0 {
      assert NatToDecimal(-m) == IntToDecimal(m)[1..];
      NatToDecimalInjective(-m, -n);
    } else {
      NatToDecimalInjective(m, n);
    }
  }

  lemma DecimalOfMaPeriods()
    ensures IntToDecimal(15) == "15" && IntToDecimal(20) == "20"
    ensures IntToDecimal(30) == "30" && IntToDecimal(50) == "50"
  {
    assert NatToDecimal(1) == "1" && NatToDecimal(2) == "2";
    assert NatToDecimal(3) == "3" && NatToDecimal(5) == "5";
  }

  // ---------------------------------------------------------------------------
  // get_preset
  // ---------------------------------------------------------------------------

  /** The key `f"EMA5MA{ma_period}"`. */
  function PresetKey(maPeriod: int): string
  {
    "EMA5MA" + IntToDecimal(maPeriod)
  }

  /** `get_preset`: the table entry, or `KeyError` when either level of the
      table lacks the key. */
  function GetPreset(interval: string, maPeriod: int): (r: Result<SlopeParams, KeyError>)
    ensures r.Ok? ==> KnownInterval(interval)
  {
    var key := PresetKey(maPeriod);
    if interval in Presets && key in Presets[interval] then Ok(Presets[interval][key])
    else Err(KeyError("No preset for interval=" + interval + ", ma=" + IntToDecimal(maPeriod) + "."))
  }

  predicate KnownInterval(interval: string)
  {
    interval == "1m" || interval == "5m" || interval == "15m"
  }

  predicate KnownMaPeriod(maPeriod: int)
  {
    maPeriod == 15 || maPeriod == 20 || maPeriod == 30 || maPeriod == 50
  }

  /** The key names the MA period: different periods give different keys. */
  lemma PresetKeyInjective(m: int, n: int)
    requires PresetKey(m) == PresetKey(n)
    ensures m == n
  {
    assert IntToDecimal(m) == PresetKey(m)[6..] == PresetKey(n)[6..] == IntToDecimal(n);
    IntToDecimalInjective(m, n);
  }

  /** The table has the three intervals and, in each, the four MA keys. */
  lemma PresetsDomain()
    ensures forall interval :: interval in Presets <==> KnownInterval(interval)
    ensures forall interval, key :: interval in Presets ==>
      (key in Presets[interval] <==>
         key == "EMA5MA15" || key == "EMA5MA20" || key == "EMA5MA30" || key == "EMA5MA50")
  {
  }

  /** The twelve entries of the table. */
  lemma PresetEntries()
    ensures Presets["1m"]["EMA5MA15"] == SlopeParams("linreg", 4, true, 0.00008, false)
    ensures Presets["1m"]["EMA5MA20"] == SlopeParams("linreg", 4, true, 0.00008, false)
    ensures Presets["1m"]["EMA5MA30"] == SlopeParams("linreg", 4, true, 0.00009, false)
    ensures Presets["1m"]["EMA5MA50"] == SlopeParams("linreg", 5, true, 0.00010, false)
    ensures Presets["5m"]["EMA5MA15"] == SlopeParams("linreg", 4, true, 0.00018, false)
    ensures Presets["5m"]["EMA5MA20"] == SlopeParams("linreg", 4, true, 0.00018, false)
    ensures Presets["5m"]["EMA5MA30"] == SlopeParams("linreg", 4, true, 0.00020, false)
    ensures Presets["5m"]["EMA5MA50"] == SlopeParams("linreg", 5, true, 0.00022, false)
    ensures Presets["15m"]["EMA5MA15"] == SlopeParams("linreg", 4, true, 0.00028, false)
    ensures Presets["15m"]["EMA5MA20"] == SlopeParams("linreg", 4, true, 0.00028, false)
    ensures Presets["15m"]["EMA5MA30"] == SlopeParams("linreg", 5, true, 0.00030, false)
    ensures Presets["15m"]["EMA5MA50"] == SlopeParams("linreg", 5, true, 0.00032, false)
  {
  }

  /** For a known interval and MA period, `get_preset` returns the table entry
      under the key spelled with that period's decimal digits. */
  lemma GetPresetKnown(interval: string, maPeriod: int)
    requires KnownInterval(interval) && KnownMaPeriod(maPeriod)
    ensures maPeriod == 15 ==> GetPreset(interval, maPeriod) == Ok(Presets[interval]["EMA5MA15"])
    ensures maPeriod == 20 ==> GetPreset(interval, maPeriod) == Ok(Presets[interval]["EMA5MA20"])
    ensures maPeriod == 30 ==> GetPreset(interval, maPeriod) == Ok(Presets[interval]["EMA5MA30"])
    ensures maPeriod == 50 ==> GetPreset(interval, maPeriod) == Ok(Presets[interval]["EMA5MA50"])
  {
    PresetsDomain();
    DecimalOfMaPeriods();
    assert PresetKey(15) == "EMA5MA15" && PresetKey(20) == "EMA5MA20";
    assert PresetKey(30) == "EMA5MA30" && PresetKey(50) == "EMA5MA50";
  }

  /** A lookup that succeeds was made with a known interval and MA period. */
  lemma GetPresetOkIsKnown(interval: string, maPeriod: int)
    requires GetPreset(interval, maPeriod).Ok?
    ensures KnownInterval(interval) && KnownMaPeriod(maPeriod)
  {
    PresetsDomain();
    var key := PresetKey(maPeriod);
    assert interval in Presets && key in Presets[interval];
    DecimalOfMaPeriods();
    if key == "EMA5MA15" {
      PresetKeyInjective(maPeriod, 15);
    } else if key == "EMA5MA20" {
      PresetKeyInjective(maPeriod, 20);
    } else if key == "EMA5MA30" {
      PresetKeyInjective(maPeriod, 30);
    } else {
      PresetKeyInjective(maPeriod, 50);
    }
  }

  /** `get_preset` succeeds for exactly the twelve combinations of a known
      interval and a known MA period, and raises `KeyError` for every other input. */
  lemma GetPresetSucceedsIff(interval: string, maPeriod: int)
    ensures GetPreset(interval, maPeriod).Ok? <==> KnownInterval(interval) && KnownMaPeriod(maPeriod)
  {
    if GetPreset(interval, maPeriod).Ok? {
      GetPresetOkIsKnown(interval, maPeriod);
    }
    if KnownInterval(interval) && KnownMaPeriod(maPeriod) {
      GetPresetKnown(interval, maPeriod);
    }
  }

  /** The error raised for a missing combination names both inputs. */
  lemma GetPresetErrorMessage(interval: string, maPeriod: int)
    requires !(KnownInterval(interval) && KnownMaPeriod(maPeriod))
    ensures GetPreset(interval, maPeriod)
      == Err(KeyError("No preset for interval=" + interval + ", ma=" + IntToDecimal(maPeriod) + "."))
  {
    GetPresetSucceedsIff(interval, maPeriod);
  }

  /** Every preset `get_preset` returns uses `linreg`, normalises by the EMA, does
      not ask for strict monotonicity, and looks back 4 or 5 bars; 5 exactly for
      MA 50 and for 15m with MA 30. */
  lemma PresetShape(interval: string, maPeriod: int)
    requires GetPreset(interval, maPeriod).Ok?
    ensures
      var p := GetPreset(interval, maPeriod).value;
      && p.mode == "linreg" && p.normalizeByEma && !p.strictMonotonic
      && (p.lookback == 4 || p.lookback == 5)
      && (p.lookback == 5 <==> maPeriod == 50 || (interval == "15m" && maPeriod == 30))
  {
    GetPresetOkIsKnown(interval, maPeriod);
    GetPresetKnown(interval, maPeriod);
    PresetEntries();
    if interval == "1m" {
    } else if interval == "5m" {
    } else {
    }
  }

  /** The `min_slope` range the module documentation gives for an interval. */
  function DocumentedMinSlopeRange(interval: string): Option<(real, real)>
  {
    if interval == "1m" then Some((0.00006, 0.00012))
    else if interval == "5m" then Some((0.00012, 0.00025))
    else if interval == "15m" then Some((0.00020, 0.00040))
    else None
  }

  /** Every preset's `min_slope` lies in the documented range for its interval. */
  lemma PresetMinSlopeInDocumentedRange(interval: string, maPeriod: int)
    requires GetPreset(interval, maPeriod).Ok?
    ensures DocumentedMinSlopeRange(interval).Some?
    ensures
      var (lo, hi) := DocumentedMinSlopeRange(interval).value;
      lo <= GetPreset(interval, maPeriod).value.minSlope <= hi
  {
    GetPresetOkIsKnown(interval, maPeriod);
    GetPresetKnown(interval, maPeriod);
    PresetEntries();
    if interval == "1m" {
    } else if interval == "5m" {
    } else {
    }
  }

  /** Within one interval a longer MA never gets a lower threshold. */
  lemma MinSlopeGrowsWithMaPeriod(interval: string, ma1: int, ma2: int)
    requires GetPreset(interval, ma1).Ok? && GetPreset(interval, ma2).Ok? && ma1 <= ma2
    ensures GetPreset(interval, ma1).value.minSlope <= GetPreset(interval, ma2).value.minSlope
  {
    GetPresetOkIsKnown(interval, ma1);
    GetPresetKnown(interval, ma1);
    GetPresetOkIsKnown(interval, ma2);
    GetPresetKnown(interval, ma2);
    PresetEntries();
    if interval == "1m" {
    } else if interval == "5m" {
    } else {
    }
  }

  /** For one MA period the threshold rises strictly from 1m to 5m to 15m. */
  lemma MinSlopeGrowsWithInterval(maPeriod: int)
    requires GetPreset("1m", maPeriod).Ok?
    ensures GetPreset("5m", maPeriod).Ok? && GetPreset("15m", maPeriod).Ok?
    ensures GetPreset("1m", maPeriod).value.minSlope < GetPreset("5m", maPeriod).value.minSlope
    ensures GetPreset("5m", maPeriod).value.minSlope < GetPreset("15m", maPeriod).value.minSlope
  {
    GetPresetOkIsKnown("1m", maPeriod);
    GetPresetKnown("1m", maPeriod);
    GetPresetKnown("5m", maPeriod);
    GetPresetKnown("15m", maPeriod);
    PresetEntries();
  }

  /** A preset's lookback never makes `ema_slope` give up on lookback grounds:
      with a preset, the slope is defined exactly when the tail of the series
      holds `lookback` defined values. */
  lemma PresetSlopeDefinedIff(interval: string, maPeriod: int, series: Indicators.Series)
    requires GetPreset(interval, maPeriod).Ok?
    ensures
      var p := GetPreset(interval, maPeriod).value;
      (Indicators.EmaSlope(series, p.lookback, p.mode, p.normalizeByEma).Some?
       <==> |Indicators.TailValues(series, p.lookback)| >= p.lookback)
  {
    PresetShape(interval, maPeriod);
    var p := GetPreset(interval, maPeriod).value;
    Indicators.EmaSlopeDefinedIff(series, p.lookback, p.mode, p.normalizeByEma);
  }
}
